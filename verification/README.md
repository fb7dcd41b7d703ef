# Margaret: a verified model of its scanner, parsers and report

Margaret scans a directory tree for ebooks, unpacks archives, reads metadata, groups files that hold the same book and
writes a consolidated report. This project models the parts of it that carry state or an algorithm, in Dafny 4.11, and
proves what they promise. Each method below is proved against a specification function or predicate; the lemmas say
what those functions mean.

| files | what they model |
|---|---|
| `RtfLexer`, `RtfText`, `RtfRuns`, `RtfDecoder`, `RtfGroups`, `RtfUnicode`, `RtfWritten`, `RtfPages`, `Utf8` | the RTF text decoder: a one-byte-at-a-time reference automaton, the buffered decoder with its run-consuming fast paths, a class that refines it for every buffering, and what written documents decode to |
| `HeadGate` | the check that runs once on the first bytes of a decoded stream |
| `Pools`, `Queues`, `Pipeline`, `PipelineRuns`, `Discovery` | the concurrent scan: walkers that feed their own queue, a counter that ends it, a result queue, parsers; every interleaving and every cancellation |
| `Spool` | the lazy random-access view over a stream, with a memory limit and a spill file |
| `Words`, `Lsh`, `MinHashBlob` | 64-bit arithmetic, bucket hashes, bands and signature blobs |
| `Grouping`, `ScanTransaction`, `ScanRecords` | the transaction that stores a parsed file and puts it in a book |
| `Lexicographic`, `Canonical`, `Resume` | canonical paths, duplicates and resumed runs |
| `Merging`, `Identifiers`, `Publications`, `Authors`, `ReportFiles`, `Consolidation` | merging metadata, voting on authors, writing the book tables and reading them back |
| `Legacy` | the choice of a legacy text encoding, pruned against exhaustive |
| `DisplayPath`, `Archives` | `archive!member` paths and depth-limited unpacking of arbitrary contents |

Foreign code enters as function parameters with the assumptions stated where they are used: code pages, the encoding
and language detectors, MinHash similarity, ISBN, language-tag and date parsing, whitespace normalization and folding.
Nondeterminism of the environment (chunk sizes, disk failures, scheduling, which waiting goroutine a signal wakes, the
order in which a map is visited or a query without ORDER BY answers) is a nondeterministic choice of the model.

Where the code behaves otherwise than one would expect, the model follows the code:

- A byte order mark counts only if no delivery ends inside it; `RtfDecoder.SplitMarkBecomesText` shows a document
  whose split mark becomes text, and `RtfDecoder.DecodeStream` says that nothing else depends on the delivery.
- Canonicalization fails, and with it the whole consolidation, when the path to be promoted is another hash's canonical
  path at that moment. It succeeds for every order of its rows exactly if no path to be promoted is another hash's
  canonical or smallest path (`Canonical.EveryOrderSucceeds`), and for some order exactly if no two hashes have the same
  smallest path (`Canonical.SomeOrderSucceeds`); `Resume.SharedPathFails` is a scan whose tables fail in every order.
- A path scanned twice with the same content, as `a.epub` next to `a.epub.gz`, can end up as a duplicate of itself: it
  does if it is the smallest path of its content and came first. So the consolidated tables depend on the order of the
  scan, exactly if some content is met twice at its smallest path and once at another (`Resume.OrderMattersExactly`;
  `Resume.RescannedPathDiffers` is an example).
- A file whose metadata names an author twice violates a primary key and is reported as failed
  (`ScanTransaction.LinkFileAuthors`).
- "Better" among encoding candidates is not transitive, so the choice is a running comparison and not a maximum.
- Members that are a whole gzip or bzip2 stream are parsed without a check for the PDF tools or the minimum size.

## Model

| member | source | states |
|---|---|---|
| RtfDecoder.DecodeStream | internal/parser/rtf/decode.go:90-223 | For every input, every sequence of deliveries of it and every sequence of read sizes the concatenated text and the captured fields are those of the one-byte-at-a-time decoder, with the mark dropped exactly if no delivery ends inside it, and decoding terminates |
| RtfDecoder.TextDecoder.Read | internal/parser/rtf/decode.go:90-118 | Hands out the next piece of that text, never more than it, and reports the end exactly when all of it has been handed out |
| RtfDecoder.TextDecoder.Step | internal/parser/rtf/decode.go:136-182 | A step keeps what state and remaining input decode to, and consumes at least one byte unless the input has ended |
| RtfDecoder.TextDecoder.Dispatch | internal/parser/rtf/decode.go:154-181 | The byte dispatch consumes input and keeps the meaning of state and rest |
| RtfDecoder.TextDecoder.PlainRun | internal/parser/rtf/decode.go:186-205 | Writing a run of ordinary bytes at once is writing them one by one |
| RtfDecoder.TextDecoder.HighRun | internal/parser/rtf/decode.go:209-223 | Buffering a run of high bytes, less the fallback bytes dropped from it, is treating them one by one |
| RtfDecoder.TextDecoder.SkipWhite | internal/parser/rtf/decode.go:166-172 | A run of source formatting is no text |
| RtfDecoder.TextDecoder.DoWord | internal/parser/rtf/decode.go:238-268 | Name, sign, digits and delimiter, with one byte pushed back, are what the automaton reads byte by byte |
| RtfDecoder.TextDecoder.HexEscape | internal/parser/rtf/decode.go:300-319 | A hex escape, cut off by the end of the input or not, does what the automaton does |
| RtfDecoder.TextDecoder.DoControlWord | internal/parser/rtf/decode.go:321-423 | Each control word changes the fields as the reference state changes |
| RtfDecoder.TextDecoder.DoControlSymbol | internal/parser/rtf/decode.go:271-298 | Each control symbol changes the fields as the reference state changes |
| RtfDecoder.TextDecoder.UnicodeValue | internal/parser/rtf/decode.go:427-450 | A code unit completes, replaces or starts a surrogate pair and arms the fallback skip |
| RtfDecoder.TextDecoder.ScanInInfo | internal/parser/rtf/decode.go:484-496 | The search down the group stack computes whether the innermost destination is the info block |
| RtfDecoder.BufReader.Fill | internal/parser/rtf/decode.go:80 | An empty buffer is filled by exactly one read of the source, which neither loses a byte nor skips a delivery's end |
| RtfDecoder.BufReader.StripMark | internal/parser/rtf/decode.go:144-153 | The mark is dropped exactly if the input has one after its leading white space and no delivery ends inside it |
| RtfDecoder.BufReader.CountRun | internal/parser/rtf/decode.go:187-194 | The length of a leading run inside the buffer |
| RtfDecoder.FirstReadDecides | internal/parser/rtf/decode.go:144-153 | A first read that reaches past the mark delivers it whole, one that ends inside it splits it |
| RtfDecoder.DeliveryIrrelevant | internal/parser/rtf/decode.go:123-153 | Without a mark, or if the first read reaches past it, the result is the same for all deliveries |
| RtfDecoder.SplitMarkBecomesText | internal/parser/rtf/decode.go:144-153 | A document that is a mark alone is three characters of text exactly if the first read splits it, and empty otherwise |
| RtfRuns.RunPlain | internal/parser/rtf/decode.go:184-205 | A run of ordinary bytes emitted at once reaches the state that emitting each byte reaches |
| RtfRuns.RunHigh | internal/parser/rtf/decode.go:207-223 | The same for high bytes, for any number of fallback characters still to be dropped |
| RtfRuns.RunEndWord | internal/parser/rtf/decode.go:246-268 | Ending a control word at any byte or at the end of input is the automaton's step |
| RtfRuns.RunHex | internal/parser/rtf/decode.go:300-319 | Two bytes after the escape are one event or none |
| RtfRuns.RunGrows | internal/parser/rtf/decode.go:517-528 | Decoding only ever appends to the text |
| RtfGroups.AlwaysGood | internal/parser/rtf/decode.go:400-482 | After any events a group is skipped exactly if it has a destination, groups inherit it and the document has none |
| RtfGroups.GroupScope | internal/parser/rtf/decode.go:462-482 | When a group is closed, fonts, visibility, destination and fallback count around it are what they were, whatever balanced events were in it |
| RtfGroups.EventScope | internal/parser/rtf/decode.go:462-482 | A group starts with the formatting around it and nothing left to drop; other events touch the innermost group alone |
| RtfGroups.InInfoIsTop | internal/parser/rtf/decode.go:484-496 | In such stacks the search through the stack equals a test of its top |
| RtfGroups.TextOrField | internal/parser/rtf/decode.go:503-541 | No event lets both the text and an info field grow |
| RtfGroups.InsideStep | internal/parser/rtf/decode.go:271-423 | A local event inside a skipped group, an `\info` block included, leaves everything outside the group alone but the captured fields, and those too if no `\info` block is allowed in it |
| RtfGroups.InsidePayload | internal/parser/rtf/decode.go:462-541 | So does any balanced payload of local events |
| RtfGroups.SkippedGroup | internal/parser/rtf/decode.go:154-541 | A group that becomes a skipped destination or an `\info` block at its start, with any balanced local payload, leaves text, stack, fonts and encodings alone: it only ends the pending run and the fallback before it, when no surrogate is pending; without an `\info` block the captured fields stay as well |
| RtfGroups.FieldsStayOutOfText | internal/parser/rtf/decode.go:503-541 | What has been captured never influences the text of the remaining document |
| RtfGroups.SkippedGroupInDocument | internal/parser/rtf/decode.go:154-181 | Deleting the bytes of such a group, an `\info` block included, from a document changes nothing in the text, and without an `\info` block nothing at all |
| RtfUnicode.RoundTrip16 | internal/parser/rtf/decode.go:427-450 | UTF-16 encoding and the decoder's pairing of surrogates are inverse (section 2 of RFC 2781) |
| RtfUnicode.RunUnits | internal/parser/rtf/decode.go:225-450 | Any written code units, paired or not, signed or unsigned, with any number of fallback characters and source white space among them, come out as the text they stand for, after the pending code-page bytes; a fallback is a character, a hex escape, a control symbol or binary data |
| RtfUnicode.UnicodeText | internal/parser/rtf/decode.go:353-566 | From any state without a pending surrogate, any text written as `\uN` words with such fallbacks comes out as exactly its UTF-8 form |
| RtfUnicode.UnpairedUnits | internal/parser/rtf/decode.go:427-450 | A surrogate without its partner stands for U+FFFD, any other unit for itself |
| RtfWritten.RunItems | internal/parser/rtf/decode.go:154-298 | Ordinary bytes, the words for breaks, tabs, spaces and punctuation, and escaped characters come out as what they stand for, source white space as nothing |
| RtfWritten.WrittenDocument | internal/parser/rtf/decode.go:90-118 | The text of a document of such items is exactly theirs |
| RtfWritten.HiddenText | internal/parser/rtf/decode.go:396-399 | Text after `\v` does not appear, text after `\v0` does |
| RtfWritten.InfoIsCaptured | internal/parser/rtf/decode.go:401-541 | A written `\info` block captures its members and leaves text, stack and encodings alone |
| RtfWritten.FirstMemberCounts | internal/parser/rtf/decode.go:452-460 | A field is the text of the first member of its name; what an earlier block captured stays |
| RtfWritten.UnknownWord | internal/parser/rtf/decode.go:397-423 | A word without a meaning here is passed over |
| RtfWritten.MemberOutside | internal/parser/rtf/decode.go:400-404 | Outside the `\info` block the names of its members mean nothing |
| RtfWritten.DestinationGroup | internal/parser/rtf/decode.go:405-414 | A group that starts with a destination word disappears with its text |
| RtfWritten.StarGroup | internal/parser/rtf/decode.go:271-298 | So does a group that starts with `\*` |
| RtfWritten.BinarySkipped | internal/parser/rtf/decode.go:362-371 | Raw data after `\binN` is no text, whatever bytes it has |
| RtfWritten.FallbackCount | internal/parser/rtf/decode.go:353-357 | `\ucN` sets how many fallback characters follow each code unit |
| RtfWritten.UnicodeDocument | internal/parser/rtf/decode.go:78-87 | Without it, it is one |
| RtfPages.CodePageText | internal/parser/rtf/decode.go:549-557 | Bytes at or above 0x80 and hex escapes come out decoded by the page of the font in use if it has one, else by the document's, and by Windows-1252 if that page rejects them |
| RtfPages.DeclaredFont | internal/parser/rtf/decode.go:334-347 | For every font number and charset, text in a font that a font table declares with that charset is decoded by the charset's page |
| RtfPages.FontTable | internal/parser/rtf/decode.go:334-347 | A font table declares the page of its font and leaves nothing else behind, its text included |
| RtfPages.DocumentPage | internal/parser/rtf/decode.go:323-327 | Text in a font without a page is decoded by the page `\ansicpg` names, or by Windows-1252 if it is unknown |
| RtfPages.DefaultPage | internal/parser/rtf/decode.go:78-87 | A document that names no page is Windows-1252 |
| RtfPages.PlainPage | internal/parser/rtf/decode.go:348-352 | `\plain` goes back to the font of `\deff` |
| RtfPages.PageChangesLater | internal/parser/rtf/decode.go:323-352 | A change of font or page does not reach the bytes before it |
| Utf8.RoundTrip | internal/parser/textdoc/headgate.go:62-71 | Encoded scalars are valid UTF-8 and decode to themselves (section 3 of RFC 3629) |
| Utf8.ReverseTrip | internal/parser/textdoc/headgate.go:62-71 | Valid UTF-8 is the encoding of what it decodes to |
| Utf8.ValidConcat | internal/parser/textdoc/headgate.go:62-71 | Validity of a text is decided by what follows any valid prefix |
| HeadGate.TruncateUtf8 | internal/parser/textdoc/headgate.go:62-71 | The longest valid prefix within the limit |
| HeadGate.HeadIsUnique | internal/parser/textdoc/headgate.go:62-71 | There is only one such prefix |
| HeadGate.HeadOfPrefix | internal/parser/textdoc/headgate.go:29-60 | It depends on the bytes within the limit only |
| HeadGate.HeadOfValidText | internal/parser/textdoc/headgate.go:62-71 | For valid text it consists of the text's first runes and drops at most three bytes |
| HeadGate.Gate.Head | internal/parser/textdoc/headgate.go:50-53 | The head at any time is the longest valid prefix of what was written, within the limit |
| HeadGate.Gate.Write | internal/parser/textdoc/headgate.go:29-39 | The check runs when the limit is reached, once, on the head of everything written |
| HeadGate.Gate.Finish | internal/parser/textdoc/headgate.go:42-48 | Otherwise it runs at the end |
| HeadGate.Feed | internal/parser/textdoc/headgate.go:29-60 | For every split of a stream into writes the check runs exactly once, on the same head |
| Pools.PushWakes | internal/processor/resultqueue.go:28-37 | A push keeps the invariant that a parked worker never outnumbers the wakeups under way |
| Pools.PopKeepsWakeups | internal/processor/resultqueue.go:41-58 | Taking an item keeps it |
| Pools.ParkIsSafe | internal/processor/resultqueue.go:44-46 | Parking on an empty open queue keeps it |
| Pools.StuckMeansIdle | internal/processor/resultqueue.go:41-46 | If all workers are parked or gone and one is parked, the queue is empty and open: no wakeup is lost |
| Queues.Queue.PushResult | internal/processor/resultqueue.go:28-37 | Appends one item at the end and signals, or refuses once closed |
| Queues.Queue.PushDir | internal/scanner/scanner.go:400-405 | Appends one item at the end and signals one waiting worker, whichever it is |
| Queues.Queue.TryPop | internal/processor/resultqueue.go:41-58 | One round of pop: the oldest item, or wait exactly while empty and open, or leave exactly when empty and closed |
| Queues.Queue.Close | internal/processor/resultqueue.go:62-67 | No more waiting; nobody stays parked and the items stay |
| Queues.Queue.Abort | internal/processor/resultqueue.go:72-78 | No more waiting; nobody stays parked and no item stays |
| PipelineRuns.KeepsInv | internal/scanner/scanner.go:257-366 | Every step of every walker, parser, the main goroutine and the environment keeps the invariant: the counter equals queued, listed and half-dispatched directories, closes the queue only when there are none, and nothing is lost or duplicated |
| PipelineRuns.RunKeepsInv | internal/scanner/scanner.go:231-310 | The invariant holds in every reachable state, cancelled or not |
| PipelineRuns.WalkerWorkKeeps | internal/scanner/scanner.go:287-361 | A walker between two pops keeps it, with the counter raised before the push as a step of its own |
| PipelineRuns.WalkerPopKeeps | internal/scanner/scanner.go:276-291 | A walker starting, waiting, popping or leaving keeps it |
| PipelineRuns.ParserPopKeeps | internal/processor/scan.go:209-223 | A parser starting, waiting, popping or leaving keeps it |
| PipelineRuns.MainKeeps | internal/processor/scan.go:234-240 | So do dispatching the root, joining, closing and aborting |
| PipelineRuns.EnvKeeps | internal/scanner/scanner.go:250-255 | So do cancellation and the goroutine that closes the queue on it |
| PipelineRuns.FinishedRun | internal/processor/scan.go:168-252 | A finished uncancelled run listed each directory and handled each file as often as the tree has it, handed results over in order of discovery, and all workers are gone |
| Discovery.ScanFindsAll | internal/scanner/scanner.go:328-366 | A finished uncancelled run has listed each directory, and handled each file of a known format, once for each route through listable directories that leads to it, so exactly the reachable ones |
| Discovery.RoutesExact | internal/scanner/scanner.go:328-366 | The routes counted are exactly those that lead to the target, each once |
| PipelineRuns.NoDeadlock | internal/scanner/scanner.go:257-307 | Until the process returns some step other than cancelling is possible |
| PipelineRuns.JoiningCanMove | internal/scanner/scanner.go:257-307 | While walkers are joined one of them can move, or all are gone, or the closer is still to run |
| PipelineRuns.RunIsBounded | internal/scanner/scanner.go:257-307 | Every step lowers a potential fixed at the start, whatever is scheduled |
| PipelineRuns.EveryRunFinishes | internal/processor/scan.go:168-252 | A run that cannot go on has finished with all workers gone, and uncancelled has done everything exactly once |
| PipelineRuns.AbortIsFinal | internal/processor/resultqueue.go:69-78 | From the abort on, over every run, the result queue is empty and nothing more comes out of it, whatever was queued |
| Spool.SpoolBlob.Append | internal/processor/spool.go:174-196 | Memory up to the cap, then the file; a failing disk leaves a prefix and counts nothing |
| Spool.SpoolBlob.Pull | internal/processor/spool.go:153-168 | One chunk more; the buffered bytes stay a prefix of the stream and an error is remembered |
| Spool.SpoolBlob.Ensure | internal/processor/spool.go:148-171 | Enough is buffered, or the stream has ended, or a sticky error is returned; less than one chunk is pulled beyond what was asked, and nothing when it is there |
| Spool.SpoolBlob.CopyFrom | internal/processor/spool.go:127-144 | What is buffered at an offset, from memory and file, and nothing else in the target changes |
| Spool.CopyHeld | internal/processor/spool.go:127-144 | The copy loop joins the two buffers without a gap |
| Spool.SpoolBlob.ReadAt | internal/processor/spool.go:88-108 | Unless the disk fails, exactly what indexing into the stream gives, short only at its end and with the source's own error there; inside the buffered prefix no error can show |
| Spool.SpoolBlob.Read | internal/processor/spool.go:114-123 | The same at the cursor, which moves by what was read |
| Spool.SpoolBlob.Size | internal/processor/spool.go:74-85 | The declared size, or the exact length of the stream |
| Spool.SpoolBlob.Seek | internal/processor/spool.go:200-226 | From the start, the cursor or the end: the new position is the offset, cursor plus offset, or size plus offset; an invalid request leaves the cursor alone |
| Spool.SpoolBlob.Close | internal/processor/spool.go:236-249 | The file is gone, also after a second call |
| Spool.NewSpoolBlob | internal/processor/spool.go:44-66 | With a declared size nothing is read; without one everything is, and failures show at once |
| Spool.Replay | internal/processor/spool.go:74-232 | Any sequence of calls gives what a reader over the whole stream in memory gives, for every chunking and memory limit, and pulls less than a chunk past the furthest byte asked for |
| Spool.SeekReadTell | internal/processor/spool.go:114-232 | After a seek to an offset a read gives the stream's bytes from there, and the cursor is where it ended |
| Spool.SeekSeekTell | internal/processor/spool.go:200-226 | A relative seek adds to the cursor, one from the end to the size; a negative target leaves the cursor alone |
| Lsh.MixTrip | internal/lsh/lsh.go:51-54 | Odd multiplication modulo 2^64 and the shift by 32 folded in are undone by their inverses |
| Lsh.RoundIsBijection | internal/lsh/lsh.go:50-54 | A round is a bijection of the states for each row, and of the rows for each state |
| Lsh.HashBand | internal/lsh/lsh.go:48-56 | Computes the fold of the rounds, read as a signed integer |
| Lsh.HashByRounds | internal/lsh/lsh.go:48-56 | One round for each row, in order, from the offset basis |
| Lsh.SignedMeans | internal/lsh/lsh.go:55 | The signed integer congruent to the state modulo 2^64 |
| Lsh.StatesStayApart | internal/lsh/lsh.go:50-54 | Different states stay different through equal rows |
| Lsh.OneRowDecides | internal/lsh/lsh.go:48-56 | Bands of equal length that differ in exactly one row never share a bucket hash |
| Lsh.ComputeBandsCustom | internal/lsh/lsh.go:29-45 | As many full bands as fit and are asked for, each with its index and the hash of its rows; none for empty or non-positive input |
| Lsh.FewDifferencesMeet | internal/lsh/lsh.go:29-45 | Fewer differences in the banded rows than bands: some bucket is shared |
| Lsh.DefaultRecall | internal/lsh/lsh.go:3-8 | With 25 bands of 5 rows at most 24 differences in the first 125 rows always make a candidate |
| Lsh.OneRowApartEverywhere | internal/lsh/lsh.go:29-45 | The bound is sharp: one difference in every band shares no bucket |
| Words.XorCancels | internal/lsh/lsh.go:51-53 | Exclusive or with the same word twice gives the word back |
| Words.XorBit | internal/lsh/lsh.go:51-53 | A bit of the exclusive or is set exactly if the bits differ |
| Words.FoldTwice | internal/lsh/lsh.go:53 | Folding the upper half into the lower is its own inverse |
| Words.FoldBit | internal/lsh/lsh.go:53 | It combines each bit with the one 32 places higher |
| Words.TimesInverse | internal/lsh/lsh.go:52 | Multiplication modulo 2^64 is undone by the inverse factor |
| MinHashBlob.DecodeEncode | internal/processor/scan.go:557-580 | Every signature comes back from its blob |
| MinHashBlob.EncodeDecode | internal/processor/scan.go:557-580 | Every blob of whole words comes back from its signature |
| MinHashBlob.ByteAt | internal/processor/scan.go:558-567 | Each word takes eight bytes, the lowest first |
| MinHashBlob.RestIsIgnored | internal/processor/scan.go:570-580 | Bytes that do not fill a word are not looked at |
| MinHashBlob.EncodeMinHash | internal/processor/scan.go:558-567 | The code writes the little-endian blob |
| MinHashBlob.DecodeMinHash | internal/processor/scan.go:570-580 | The code reads its whole words |
| Grouping.OutcomeKeepsInv | internal/processor/scan.go:368-506 | Every outcome of the transaction keeps: buckets are exactly the bands of the stored files, each file is in one book, no book is empty, each file is with a nearest earlier file or founded its book because none was near, and the authors of a book are exactly those of its files |
| Grouping.StoredKeepsInv | internal/processor/scan.go:393-505 | Storing a new file keeps all of it |
| Grouping.StoredIndexed | internal/processor/scan.go:495-503 | The bucket table still holds exactly the bands of the stored signatures |
| Grouping.StoredPlaced | internal/processor/scan.go:434-484 | Old files stay where they belong and the new one is with a nearest file or alone |
| Grouping.StoredAuthored | internal/processor/scan.go:421-428 | Linking the authors of a new file to the file and to its book keeps a book's authors those of its files |
| Grouping.NewFile | internal/processor/scan.go:393-506 | A new file gets a row with its hash, path and signature, a book and exactly the authors that were parsed; other files and their authors stay |
| Grouping.KnownContent | internal/processor/scan.go:405-413 | A known content leaves a duplicate and its authors' names, and nothing else |
| Grouping.RefusedFile | internal/processor/scan.go:393-428 | A new content is refused, and leaves nothing, exactly if its path is taken or an author is named twice |
| ScanTransaction.Database.Parse | internal/processor/scan.go:368-513 | Empty hash, known hash, taken path, repeated author and new file each end as specified; a failure changes nothing |
| ScanTransaction.Transaction | internal/processor/scan.go:368-506 | The code of the transaction has that outcome |
| ScanTransaction.LookupFindsAll | internal/database/queries/books.sql:97-101 | The bucket lookups find the files that a comparison with every stored file would find |
| ScanTransaction.FindCandidates | internal/processor/scan.go:434-449 | The candidates are the files in one of the buckets, with their blobs |
| ScanTransaction.BestMatch | internal/processor/scan.go:451-458 | A candidate of maximal similarity at or above the threshold, if there is one, for every order of visiting them |
| ScanTransaction.FindMatch | internal/processor/scan.go:430-458 | The match is a nearest stored file, and there is none exactly if no stored file is near |
| ScanTransaction.LinkFileAuthors | internal/processor/scan.go:421-428 | Succeeds exactly if no author is named twice |
| ScanTransaction.NearDuplicatesAreGrouped | internal/processor/scan.go:430-477 | In every state a file at least 75% similar to an earlier one and differing from it in at most 24 of the first 125 rows is in a book with an earlier file that is at least as similar |
| ScanRecords.OutcomeRecords | internal/processor/scan.go:393-415 | Seen as hashes and paths, the transaction records the path, adds a duplicate or refuses it |
| ScanRecords.ScanIsRecorded | internal/processor/scan.go:368-415 | After any sequence of transactions on an empty database the tables keep their invariant and record exactly what the record function gives for the files with a hash that are known or repeat no author |
| ScanRecords.RecordsWellFormed | internal/processor/scan.go:393-415 | Tables that keep the invariant have one row for each path and hash, and duplicates of recorded hashes only |
| ScanRecords.CanonicalizeScan | internal/report/books.go:110-142 | The pass over the tables of any scan makes the smallest paths canonical or changes nothing, and succeeds if no path to be promoted is taken |
| Canonical.NewPathIsSmallest | internal/database/queries/book_files.sql:52-60 | The path a hash gets is the smallest of all its recorded paths |
| Lexicographic.LessMeans | internal/database/queries/book_files.sql:52-60 | A path comes before its extensions, and before those with a greater character where they first differ |
| Canonical.Database.ListNeeding | internal/database/queries/book_files.sql:52-60 | One row for each hash whose smallest duplicate is smaller than its path |
| Canonical.Database.UpdatePath | internal/database/queries/book_files.sql:62-63 | Fails exactly if another row has the path |
| Canonical.Database.Canonicalize | internal/report/books.go:116-142 | Succeeds exactly if each promoted path is free at its turn, always if no path to be promoted is another hash's canonical or smallest path, and never if two hashes have the same smallest path; then every hash is canonical, otherwise nothing has changed |
| Canonical.EveryOrderSucceeds | internal/report/books.go:116-142 | The pass succeeds for every order of the rows exactly if no path to be promoted is another hash's canonical or smallest path |
| Canonical.SomeOrderSucceeds | internal/report/books.go:116-142 | It succeeds for some order exactly if no two hashes have the same smallest path |
| Canonical.Database.ShouldSkip | internal/processor/resume.go:14-24 | On resume exactly the recorded paths are skipped |
| Resume.CanonicalizedPaths | internal/report/books.go:110-142 | Each hash keeps its set of paths and its canonical path is the smallest of them |
| Resume.CanonicalComesFirst | internal/report/books.go:110-142 | No recorded path of the content is a proper prefix of its canonical path or smaller where they first differ |
| Resume.CanonicalizeTwice | internal/report/books.go:110-142 | A second pass changes nothing |
| Resume.OneHashNeverClashes | internal/report/books.go:128-133 | With no path under two hashes the pass succeeds in every order |
| Resume.OneHashSucceeds | internal/report/books.go:128-133 | After a scan in which no path has two contents the pass succeeds in every order of its rows |
| Resume.SharedPathFails | internal/report/books.go:128-133 | Scanning content h at b, content g at a and content h at a leaves tables on which the pass fails in every order |
| Resume.ScanOrderDecides | internal/report/books.go:110-142 | For any two scans of the same files, no path with two contents, the consolidated canonical paths are equal, and the whole tables exactly if the same contents are met first and again at their smallest path in both |
| Resume.OrderMattersExactly | internal/report/books.go:110-142 | All orders of a scan are consolidated to the same tables exactly if no content that has several paths occurs twice at the smallest of them |
| Resume.RescannedPathDiffers | internal/processor/archive.go:78-86 | Three files in two orders: one leaves a path as its own duplicate, the other does not |
| Resume.ScanOrderDoesNotMatter | internal/report/books.go:110-115 | If no path is scanned twice, the consolidated tables are the same for every order in which the files were scanned |
| Resume.StepKeeps | internal/processor/resume.go:7-24 | A step of a resumed run keeps recorded paths recorded, and each under one hash if it was |
| Resume.ResumedRuns | internal/processor/resume.go:7-24 | From any well-formed tables, as every scan leaves them, over any runs and consolidations recorded paths never shrink and are never parsed again; if no path is under two hashes at the start, consolidation always succeeds |
| Merging.FirstsKeys | internal/report/book_metadata.go:158-191 | Deduplication keeps exactly the keys that occur, each once |
| Merging.MergeSubjects | internal/report/book_metadata.go:158-174 | The first spelling of each subject in order of occurrence |
| Merging.MergeLanguages | internal/report/book_metadata.go:176-191 | The valid language tags in order of first occurrence |
| Merging.MergesDistinct | internal/report/book_metadata.go:158-191 | No subject, in any spelling, and no language is listed twice |
| Merging.SubjectsExact | internal/report/book_metadata.go:158-174 | A subject is listed exactly if it is the first spelling of a value that is not blank |
| Merging.SubjectsInOrder | internal/report/book_metadata.go:158-174 | Subjects come in the order of those first spellings |
| Merging.LanguagesExact | internal/report/book_metadata.go:176-191 | Exactly the valid languages are listed |
| Merging.LanguagesInOrder | internal/report/book_metadata.go:176-191 | They come in the order in which they occur first |
| Identifiers.MergeIdentifiers | internal/report/book_metadata.go:214-237 | One identifier per canonical ISBN in order of first occurrence, its source the join of all its occurrences |
| Identifiers.JoinOneMore | internal/identifier/identifier.go:23-33 | Merging sources one by one computes the join of their set |
| Identifiers.MergedValues | internal/report/book_metadata.go:214-237 | The values are distinct and every source is one of the three known ones |
| Identifiers.MergedExact | internal/report/book_metadata.go:214-237 | Exactly the ISBNs that occur come out, from metadata if all occurrences are, from the text if all are, else from both |
| Identifiers.MergedInOrder | internal/report/book_metadata.go:214-237 | They come in the order in which their values occur first |
| Identifiers.OrderDoesNotMatter | internal/identifier/identifier.go:22-33 | Which identifiers come out, sources included, does not depend on the order of occurrences |
| Publications.MergePublications | internal/report/book_metadata.go:109-156 | Publishers in order of first occurrence, each with its dates in order, or alone without any |
| Publications.PublicationsDistinct | internal/report/book_metadata.go:109-156 | No pair of publisher and date is listed twice |
| Publications.MergedExact | internal/report/book_metadata.go:109-156 | A publisher comes out in its first spelling with each date some file gives for it, alone without any; dates without a publisher are kept |
| Publications.MergedInOrder | internal/report/book_metadata.go:109-156 | Publishers come in the order of their first files, and the dates of one in the order of theirs |
| Authors.SortStrings | internal/report/bookmeta.go:1092-1098 | The sorted permutation, in place |
| Authors.SortedIsUnique | internal/report/bookmeta.go:1092-1098 | There is one sorted listing of a multiset |
| Authors.JoinInjective | internal/report/bookmeta.go:1057 | Joining separator-free names is injective |
| Authors.VoteKey | internal/report/bookmeta.go:1052-1057 | The key is the join of the sorted canonical names |
| Authors.KeyIsMultiset | internal/report/bookmeta.go:1028-1033 | Two lists vote together exactly if their canonical names form the same multiset |
| Authors.PickAuthors | internal/report/bookmeta.go:1034-1088 | The names of the list that beats every other by votes, authors, characters, spaced names and first place, or none |
| Authors.WinnerIsUnique | internal/report/bookmeta.go:1075-1082 | There is one such list |
| Authors.MostCommonWins | internal/report/bookmeta.go:1034-1088 | The authors picked are those of a candidate that as many agree with as with any other, in the first one's spelling, and none of as many has more names; nobody exactly if no candidate has a name |
| Authors.WinnerLeads | internal/report/bookmeta.go:1075-1082 | No list has more votes than the winner, among equals none more authors, then characters, then spaced names, then an earlier candidate |
| Authors.RankMeans | internal/report/bookmeta.go:1067-1082 | Lists are compared by the number of their voters, their names, the length of their text, their names with a space and their first candidate |
| Authors.KeptEach | internal/report/bookmeta.go:1042-1050 | Each name counts by itself: normalized, unless that is blank or a placeholder |
| Authors.CanonicalFlips | internal/report/bookmeta.go:1019-1026 | "Last, First" votes as "First Last", unless nothing is left of it; a name without a comma votes as it is |
| Authors.CountsAddUp | internal/report/bookmeta.go:1042-1065 | The votes add up to the candidates with names |
| ReportFiles.BuildFiles | internal/report/books.go:533-608 | Every recorded path of the book is listed once and nothing else: first the book's own files in the order of their paths, then the duplicates in theirs, under the metadata of their content |
| ReportFiles.SortByPath | internal/report/books.go:533-538 | The rows of a book in strictly ascending order of their paths, none lost or added |
| Consolidation.Replace | internal/report/books.go:154-204 | Deletes a book's rows and inserts the list with its ordinals |
| Consolidation.ReadBack | internal/database/queries/books.sql:163-173 | The list read back in order equals the list written exactly if no key repeats |
| Consolidation.FirstInserted | internal/report/books.go:154-204 | A key that repeats keeps its first row |
| Consolidation.ReportKeysDistinct | internal/report/book_metadata.go:109-237 | The computed lists repeat no primary key |
| Consolidation.Library.Consolidate | internal/report/books.go:63-108 | The code of the pass: all books persisted, authors linked, orphans deleted, or nothing if canonicalization fails |
| Consolidation.AllHold | internal/report/books.go:72-95 | Afterwards the tables hold the report of every book |
| Consolidation.ConsolidateTwice | internal/report/books.go:61-62 | A second consolidation changes nothing |
| Consolidation.ReportReadBack | internal/report/books.go:144-364 | Subjects, languages, identifiers and publications read back are, in order, the merges of the raw lists of the book |
| Consolidation.AuthorsLeft | internal/report/books.go:72-99 | Each book has its row and exactly its authors; authors a file or a book names stay, and no others |
| Consolidation.Library.GetLists | internal/database/queries/books.sql:163-173 | The four queries return all rows of the book in the order of their ordinals |
| Legacy.DetectLegacy | internal/parser/txt/encoding.go:90-139 | Computes the pruned choice, and with it the exhaustive one for guesses of descending confidence and language confidences up to 1, with the same limit |
| Legacy.PrunedIsExhaustive | internal/parser/txt/encoding.go:85-139 | For such guesses skipping the language pass for dominated candidates does not change the choice |
| Legacy.ExhaustiveIs | internal/parser/txt/encoding.go:90-139 | The choice is made among the first six usable candidates, and is Windows-1252 without any |
| Legacy.LanguageWins | internal/parser/txt/encoding.go:188-205 | If any candidate's text is in a language, the choice's is |
| Legacy.ClearLanguageWins | internal/parser/txt/encoding.go:188-205 | A candidate surer of its language than all others by more than 0.05 is chosen |
| Legacy.CleanestWins | internal/parser/txt/encoding.go:188-205 | Among candidates equally sure, or all without a language, the best quality wins, then confidence, then the first |
| Legacy.AgreeSkipped | internal/parser/txt/encoding.go:132-139 | A skipped candidate would not have changed the choice |
| Legacy.BetterIsNotTransitive | internal/parser/txt/encoding.go:188-205 | The comparison is not transitive |
| Legacy.OrderIsNeeded | internal/parser/txt/encoding.go:85-89 | Without the descending order it can: on a list of two guesses the pruned choice is the first and the exhaustive one the second |
| DisplayPath.KnownExtensionsAreProper | internal/report/bookmeta.go:388-393 | The archive extensions are not empty and have no exclamation mark |
| DisplayPath.ExtMeans | internal/report/bookmeta.go:224-227 | The extension starts at the last dot, if that comes after the last slash |
| DisplayPath.ArchiveBoundary | internal/report/bookmeta.go:192-199 | The last mark that follows an archive name, or -1 |
| DisplayPath.ArchiveSegments | internal/report/bookmeta.go:203-220 | The pieces between all such marks |
| DisplayPath.JoinSegments | internal/report/bookmeta.go:201-220 | Joining the segments of any path gives the path |
| DisplayPath.LastSegment | internal/report/bookmeta.go:188-220 | The last segment starts right after the boundary |
| DisplayPath.SplitJoinExact | internal/processor/archive.go:227-340 | Names come back from the joined path exactly if all but the last are archives and none has a boundary inside |
| Archives.MemberIsLastSegment | internal/processor/archive.go:340 | A member's display path splits into its archive's segments and its name exactly if the name has no boundary |
| Archives.ReportedOnce | internal/processor/archive.go:52-359 | For every chain of members exactly the event its item deserves is reported, once: parsed, failed or skipped for ebooks, one failure for an archive that cannot be expanded |
| Archives.BookReported | internal/processor/archive.go:215-359 | A book in an archive is parsed exactly if it opens, is not recorded, is enabled and large enough, and is one; each other outcome has its exact condition too |
| Archives.ArchiveReported | internal/processor/archive.go:335-342 | An archive in an archive reports what it reports one level deeper, unless it cannot be reached or is recorded |
| Archives.StreamReported | internal/processor/archive.go:312-328 | The item of a gzip or bzip2 stream is shown and typed under the path without its last extension |
| Archives.OwnReported | internal/processor/archive.go:53-101 | An archive fails itself exactly if it lies too deep, cannot be read as what it is, or breaks off and is no zip file |
| Archives.ChainsAreShort | internal/processor/archive.go:53-57 | However contents contain themselves, nothing is reported below the nesting limit |
| Archives.TooDeepFailsOnce | internal/processor/archive.go:53-57 | An archive at the limit yields one failure |
| Archives.Processor.ProcessArchive | internal/processor/archive.go:52-101 | The recursive code terminates and reports exactly that log |
| Archives.Processor.HandleMember | internal/processor/archive.go:335-359 | A member is unpacked, skipped or parsed as specified |
| Archives.Processor.HandleListed | internal/processor/archive.go:215-283 | Zip, rar and 7z members: directories and unknown formats ignored, recorded ones skipped, unreadable ones failed |
| Archives.Processor.HandleStream | internal/processor/archive.go:312-328 | A gzip or bzip2 stream is one member without a name of its own |
| Archives.Processor.Fail | internal/processor/scan.go:616-631 | A failure is counted and listed once |
| Archives.CountersAddUp | internal/processor/scan.go:109-116 | Parsed, failed and skipped add up to the reported items, and the failure list has the failed ones |

## Left out

- RTF: source errors other than the end of input, which end decoding; overflow of parameters beyond 64 bits in `param*10`; the code-page tables.
- Pipeline: statistics, progress callbacks and the opening of the root before the walk; the context is two flags, and the cancellation `Scan` does on return has no effect on anything modelled.
- Spool: the mutex, sizes and offsets beyond 63 bits, a spill file whose reads fail, and reads after `Close`, where the copy loop makes no progress once bytes were spilled.
- Spool.SpoolBlob.Size: does not claim exactness for streams of 2^63-1 bytes or more, where the original's request would be satisfied early.
- Grouping: columns the transaction only copies (titles, subjects and the like); rows are the fields the decisions read. Transactions run one at a time, as SQLite's writers do, and a conflict on the hash is found before one on the path.
- Canonical: ids of rows; a hash identifies its row. Clearing the database before a fresh scan.
- Resume.ResumedRuns: a path is looked up and stored in one step; two workers visiting the same path at once are not modelled.
- Consolidation: how titles and book-level authors are chosen is one pure function of the raw rows; the order of authors on read-back; the CHECK constraint on dates, which the date parser meets; the full-text tables.
- Archives: cancellation, the byte formats of archives and the decoding of member names; what earlier runs recorded is fixed while an archive is processed.
- Legacy: the text-quality score and the trimming of a cut sample are part of the decoder parameter; confidences are reals.
- Authors and Merging: the text functions themselves, and `pickCommonValue` and `pickTitle`, whose votes follow the same pattern.
- `washAuthorAffix`, the file-name heuristics, `classify` and the extension statistics: branches without a further specification.
- FTP, Poppler, XMP, JSON output, the command line and the terminal.

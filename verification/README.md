# A verified model of the audit logger

The logger takes audit events from a message stream, stores them in ClickHouse, and serves a search
interface over what it stored. This project models its four hard parts in Dafny and proves what they
promise.

**The consumer** (`Payload`, `Leaves`, `Delivery`, `Pipeline`, `Tables`, `Guarantees`, `Contents`, `Logs`,
`LogLines`). Messages are fetched, parsed, handed through a bounded channel, gathered and written to two
tables, and then acked or naked. Inserts fail half-way, acks are lost, the process dies, and the server
delivers any message again at any time. `Delivery` has the loops of the program as methods over fields;
`Pipeline` is the transition system whose insert step is the specification those methods are proved
against; `Tables` says what a ReplacingMergeTree shows with `FINAL`. Every choice the environment makes is
part of a label, so a statement about a run is a statement about every interleaving; each event of a batch
reads the clock for itself. `Leaves` and `Contents` say which rows the events of a stream are to leave,
from the events alone. `Logs` is the single-threaded reader of log lines, whose table keeps repeats.

**The content reader** (`Bytes`, `HeaderScan`, `HeaderDoc`, `HeaderCut`, `HeaderWindow`, `HeaderStrict`,
`Utf8`, `ObjectWindow`, `Paging`, `Percent`, `ArgsWindow`). Archived objects are read in byte windows. The
hand-written header reader is proved against the structure of the JSON document (sections 2, 5 and 7 of
RFC 8259) at every byte it may be cut at, and at windows that open inside it; UTF-8 is section 4 of RFC
3629; ranges are sections 14.2, 14.4, 15.3.7 and 15.5.17 of RFC 9110. Offsets are 64-bit and wrap.

**The search** (`Strings`, `Lists`, `Like`, `IpRange`, `FilterNames`, `FilterCompile`, `FilterWhere`,
`Normalize`, `NormalTold`, `ReadSide`, `FinalPages`, `Alike`, `Listing`, `OneRow`, `Sorting`, `Preview`,
`JsonObject`, `Spread`, `Card`, `CardFacts`, `CardTold`). A filter is normalised and compiled to clauses
and named parameters; clauses are evaluated on rows, LIKE is a real matcher and addresses are 16 bytes.
Raw reads are deduplicated in memory and compared with what `FINAL` shows. Findings are joined onto a
card.

**The schema migration** (`Migrate`). Replicas race for a lock table, may fail or die between any two
statements, and may drop a lock they judged stale some time after judging it.

Loops and in-place updates of the program are methods (`Take`, `Flush`, `Insert`, `ScanHeaders`,
`Range`, `DedupInPlace`, `SortStrings`, `Apply`, ...), each proved to compute a specification function;
the promises are lemmas about these functions. Where a promise is false of the code, the exact
condition under which it holds is proved next to an input for which it fails.

What the program does that may surprise a maintainer, each a lemma below:

- without a readable time stamp in every event the tables depend on the run (`OneOutcomeIffStamped`,
  `UnstampedDoubles`);
- a served page drops repeats by a key without the time stamp: two findings that differ in it alone are
  one on a page they share and two on pages of their own (`FindingsPageIff`, `FindingsAreFinalIff`,
  `PageSizeHides`);
- where the last window of an object is not well-formed UTF-8 and trims to text all the same, the bytes
  behind that text are never shown although the flag says there is no more (`FlagTellsIff`,
  `ReadingTellsIff`, `CutTailIsLost`);
- the tolerant header reader decodes two surrogate escapes one by one and keeps raw bytes that are not
  UTF-8 (`AgreesWithStrictIff`, `SurrogatePairDiffers`, `RawByteDiffers`);
- a window of headers that opens inside a string loses what its first bytes make look like a place between
  strings: white space, a comma, or a bracket before a bracket or a quote (`StringWindowIff`, `SpaceIsLost`);
- a query string cut right behind an ampersand, inside a name or inside an escape does not join from the
  two answers alone (`AnswersJoinIff`, `CutBehindAmpersand`);
- a filter by addresses whose words name no network is not narrowed to addresses at all (`NoNetworkIff`);
- a link to a ray shows another row than the request when eight or more rows of the ray came after it
  (`OneShowsRequestIff`, `RequestIsMissed`), and a card reads a thousand findings where one event may
  bear 1024 (`CardHasAllIff`, `FullEventIsCut`);
- one inspector whose rewrite is not an object of the expected kind costs all inspectors theirs on the
  card (`RewritesReadBackIff`, `OneSpoilsAll`);
- a header name that grows in lower case can be dropped by the second normalisation
  (`GrownNameIsLost`);
- a freshly created lock table counts as stale, so two replicas can both get in (`EmptyTableRace`).

## Model

| member | source | states |
|---|---|---|
| Payload.FromInspector | internal/model/finding.go:84-178 | an addressed event gives one clean row, or one row a finding up to the cap of 1024, with its index and the shared key fields; any other event is refused |
| Payload.InspectorKeysDistinct | internal/model/finding.go:84-178 | the cap keeps the 16-bit index from wrapping: no two rows of one event share a sort key |
| Payload.ParseShape | internal/consume/consume.go:167-211 | the clock, read anew by each event, changes neither the number of rows and findings of a payload nor whether it is bad, however deep the batches are nested |
| Payload.ClockFreeIffStamped | internal/model/row.go:253-256 | a payload parses alike whatever the clock shows at each of its events exactly when every event in it that yields rows has a time stamp that parses |
| Payload.UnstampedBears | internal/model/finding.go:104-107 | a payload with an unreadable time stamp anywhere in it can yield a row or a finding under any time stamp |
| Leaves.ParseTells | internal/consume/consume.go:167-211 | whatever the depth of the batches and the clock, a payload yields what the events in it are to leave, each event once and its rows in one piece: one row with its key fields for an addressed request, one finding a finding up to 1024 with its index, or one clean one, for an addressed inspector event, nothing for anything else; and it is bad exactly if something in it is |
| Delivery.Take | internal/consume/consume.go:138-165 | what yields nothing is acked at once; the rest is gathered in order, rows and findings being the concatenation of what each message yields |
| Delivery.KeepDiscard | internal/consume/consume.go:138-165 | every delivery taken goes to exactly one side, to the batch if it yields anything and to the acks if not |
| Delivery.Inserter.Write | internal/consume/consume.go:255-261 | findings are sent only after the rows; a failing insert leaves part of its own list and nothing of the other |
| Delivery.Inserter.Flush | internal/consume/consume.go:213-253 | after a write every message of the batch is acked if both inserts succeeded and every one is naked if not; an empty batch changes nothing |
| Delivery.Inserter.Insert | internal/consume/consume.go:99-130 | the select loop over any schedule of batches, ticks and the close leaves the tables, replies and accumulator of the step-by-step specification |
| Delivery.FlushesWhenDue | internal/consume/consume.go:99-130 | nothing is written before twenty thousand rows are at hand, unless the ticker fires or the channel closes, and then all at hand is written, or answered with naks, and gone |
| Pipeline.FlushAckSafe | internal/consume/consume.go:213-261 | a flush acks only what it has written, even if rows were written and findings failed |
| Pipeline.PlacesKept | internal/consume/consume.go:33-130 | no step of the pipeline loses or doubles a delivery: hand, channel, accumulator, acks, naks and what died without a reply balance what was taken |
| Pipeline.Invariant | internal/consume/consume.go:33-130 | in every state of every run: batches hold what their messages yield, deliveries are owned, sizes are bounded, acks are safe, tables are derived |
| Guarantees.AckedIsStored | internal/consume/consume.go:145-165 | in every reachable state an acked delivery has all its rows and findings in the raw tables |
| Guarantees.Ownership | internal/consume/consume.go:99-130 | every delivery taken is in exactly one place; the accumulator is the concatenation of its messages' parses and stays below the insert size |
| Guarantees.Drained | internal/consume/consume.go:56-69 | when Run has returned, hand, channel and accumulator are empty and each delivery has been acked, naked or dropped, once |
| Guarantees.TablesBetween | internal/consume/consume.go:138-261 | at every moment the raw tables hold only what the stream yields, and all that confirmed messages yield |
| Guarantees.TablesComplete | internal/consume/consume.go:138-261 | once all messages are confirmed the raw tables hold exactly the rows of the stream |
| Guarantees.OnceIffStamped | internal/consume/consume.go:138-261 | the raw tables hold exactly the rows of the stream after every complete run if and only if every message is stamped |
| Guarantees.OneOutcomeIffStamped | internal/model/row.go:253-256 | all complete runs leave the same rows and findings if and only if every message is stamped |
| Guarantees.EffectivelyOnce | schema/001_audit.sql:110-112 | after any run over stamped messages that ends with all of them confirmed, the tables with FINAL are those of a stream read once, and show every row exactly when the sort key determines the row |
| Guarantees.EffectivelyOnceIff | schema/002_audit_finding.sql:36-38 | the tables with FINAL show the stream after every complete run if and only if every message is stamped and the sort keys determine the rows and findings |
| Contents.StreamTold | internal/consume/consume.go:138-211 | the rows of a stamped stream are exactly those its events, at any depth of batches, are to leave |
| Contents.TablesTold | internal/consume/consume.go:138-261 | after every complete run over stamped messages the raw tables hold a row for every addressed request and a finding for every finding below the cap of every addressed inspector event, and nothing else |
| Contents.EventsShownOnce | schema/002_audit_finding.sql:36-38 | and if the sort keys tell these apart the tables with FINAL show exactly them, each under its own key |
| Contents.FindingIsStored | internal/model/finding.go:133-178 | for instance finding i of an inspector event, written out column by column |
| Guarantees.CompletableCalmly | internal/consume/consume.go:72-130 | a running process can go on from every reachable state, without stopping or dying, until all messages are confirmed |
| Guarantees.Completable | internal/consume/consume.go:33-70 | and one that has stopped can be started again, so that every run can be completed |
| Guarantees.Stoppable | internal/consume/consume.go:56-69 | a running process that is told to stop can come to its end with all that was in the channel and at hand written and acked |
| Guarantees.DeliverOne | internal/consume/consume.go:72-130 | a message fetched by an idle consumer can be sent, received and flushed, its rows stored and its ack sent |
| Guarantees.RedeliveredIsStoredTwice | internal/consume/consume.go:244-248 | when the ack of any message is lost, what both of its deliveries yield is in the raw tables |
| Guarantees.UnstampedDoubles | internal/model/row.go:253-256 | a request without a readable time stamp, anywhere in a stream, that is delivered twice is in the collapsed table twice |
| Tables.CollapseHolds | schema/002_audit_finding.sql:36-38 | FINAL leaves each sort key one of its raw rows, of the greatest revision |
| Tables.CollapseKeepsLast | schema/001_audit.sql:110-112 | among rows of one key and the greatest revision it is the one inserted last |
| Tables.FinalShowsAllIff | schema/002_audit_finding.sql:36-38 | FINAL shows all raw rows exactly when equal keys imply equal rows |
| Tables.CollapseIgnoresRepeats | schema/001_audit.sql:110-112 | order and repetition of raw rows do not show, if the key determines the row |
| Logs.LogReader.TakeLogs | internal/consume/logs.go:111-137 | messages without lines are acked at once, the others gathered in order |
| Logs.LogReader.FlushLogs | internal/consume/logs.go:139-177 | all messages at hand are acked after a complete insert and naked after a failed one |
| Logs.LogReader.RunLogs | internal/consume/logs.go:48-76 | the loop over any sequence of fetches and its end leaves table, acks and naks of the step-by-step specification |
| Logs.LogsHold | internal/consume/logs.go:28-76 | in every run: acked messages have their lines in the table, the table holds only delivered lines, every delivery is acked, naked or at hand once, less than a full insert is at hand, nothing after the end |
| Logs.LogsComplete | internal/consume/logs.go:28-76 | when the reader ended without a nak the table is the lines of the messages delivered, in order and as often as delivered |
| Logs.LogTableIs | internal/consume/logs.go:28-76 | in every run the table is, repeats included, the lines of the acked messages and what failing inserts left behind |
| Logs.LoggedOnceIff | internal/consume/logs.go:139-177 | the table holds the acked lines once each exactly when no failing insert left a line |
| Logs.LogLineDoubles | schema/003_log.sql:1-15 | an insert that failed after storing its lines comes again, and the plain table keeps both copies |
| LogLines.ReadLog | internal/model/logline.go:35-79 | the loop over the lines of a message computes its rows |
| LogLines.LogTells | internal/model/logline.go:35-79 | a message gives one row for every line with a text, in order, with its writer, service, severity, time stamp and text up to 8192 bytes, and no other rows |
| LogLines.LinesAreLogged | internal/consume/logs.go:28-76 | in every run each line of an acked message is in the table and each row of the table is that of a line delivered |
| LogLines.LogsFlushWhenDue | internal/consume/logs.go:48-76 | nothing is written before twenty thousand lines are at hand or the interval has passed |
| HeaderScan.SkipSpace | internal/httpapi/content_parse.go:226-237 | the loop stops at the first byte that is not white space |
| HeaderScan.ReadJSONString | internal/httpapi/content_parse.go:153-215 | the loop computes the text, the end and the completeness of the string, escapes and cut-off escapes included |
| HeaderScan.ReadPairAt | internal/httpapi/content_parse.go:112-151 | the reads of one pair, in order, with its early returns |
| HeaderScan.ScanHeaders | internal/httpapi/content_parse.go:58-110 | the loop over pairs computes the pairs and the continuation |
| HeaderDoc.BodyAgrees | internal/httpapi/content_parse.go:153-215 | reading a string cut anywhere gives the meaning of its whole escapes before the cut, or the whole string and where it closed |
| HeaderDoc.PairAgrees | internal/httpapi/content_parse.go:112-151 | reading a pair cut anywhere gives what the cut still tells of its name and value, and whether the value was closed |
| HeaderDoc.ListAgrees | internal/httpapi/content_parse.go:58-110 | reading a list of pairs from any front of its text gives what the cut tells |
| HeaderCut.ScanCut | internal/httpapi/content_parse.go:58-110 | for every document, white space and choice of escapes included, and every cut, scanHeaders returns exactly what the cut still tells |
| HeaderCut.TruncationTolerant | internal/httpapi/content_parse.go:58-215 | the pairs read from a cut document are its leading pairs, the last possibly a bytewise prefix in name and value, and no pair whose value was closed is missing |
| HeaderWindow.ContinuesIff | internal/httpapi/content_parse.go:58-110 | any window is handed out whole as a continuation, its escapes read up to the first quote, exactly if nothing at its front is taken for a place between strings |
| HeaderWindow.StringWindowIff | internal/httpapi/content_parse.go:58-110 | a window that opens inside a string, and may end there, yields no pair and the rest of the string, exactly under that condition |
| HeaderWindow.StringWindow | internal/httpapi/content_parse.go:74-75 | in particular whenever its first byte is no white space, no comma and no bracket |
| HeaderWindow.SpaceIsLost | internal/httpapi/content_parse.go:58-75 | a window that opens inside a string at a space leaves the space out of the continuation |
| HeaderWindow.SeparatorWindow | internal/httpapi/content_parse.go:71-72 | a window that opens at the comma behind a pair reads the pairs that follow, cut anywhere |
| HeaderWindow.PairWindow | internal/httpapi/content_parse.go:65-69 | and one that opens at a pair reads from that pair on |
| HeaderWindow.OddEscapes | internal/httpapi/content_parse.go:171-215 | a backslash before any other byte stands for that byte, one before a u without four digits for the u, and a cut escape for nothing |
| HeaderStrict.AgreesWithStrictIff | internal/httpapi/content.go:188-212 | on a whole document the tolerant reader and json.Unmarshal agree exactly when the raw bytes of every string are well-formed UTF-8 and no string holds two surrogate escapes that make one character |
| HeaderStrict.StrictIff | internal/httpapi/content_parse.go:153-215 | the same of one string: joined surrogates and replaced bytes never make up for one another |
| HeaderStrict.IsHexIff | internal/httpapi/content_parse.go:199-209 | the hexadecimal digits of an escape are those of 0 to 15 in either case |
| HeaderStrict.EscapesMean | internal/httpapi/content_parse.go:181-210 | an escape of four digits in either case means the UTF-8 of that number, half a surrogate pair the replacement character, and the short escapes their control characters |
| HeaderStrict.SurrogatesRead | internal/httpapi/content.go:188-212 | every code point beyond the basic plane written as two escapes is that character to the strict reader and two replacement characters to the tolerant one |
| HeaderStrict.SurrogatePairDiffers | internal/httpapi/content.go:188-212 | of a document with the escapes of U+1F600 the strict reader makes the character and the tolerant one two replacement characters |
| HeaderStrict.RawByteDiffers | internal/httpapi/content.go:188-212 | of a document with the single byte FF the strict reader makes a replacement character and the tolerant one the byte |
| HeaderCut.RoundTrip | internal/httpapi/content_parse.go:58-215 | every non-empty list of pairs written by an escaping encoder is read back as it was |
| Utf8.Utf8Window | internal/httpapi/content_parse.go:35-56 | the loop shows the front of the data up to its end, or up to the character that is cut, or nothing |
| Utf8.TrimFindsBoundary | internal/httpapi/content_parse.go:44-50 | trimming continuation bytes and one lead byte finds the last character boundary of a cut text |
| Utf8.WindowOfText | internal/httpapi/content_parse.go:35-56 | any front of NUL-free text shows the text up to the last character boundary; four bytes, or the whole, always show something |
| Utf8.ShownIsText | internal/httpapi/content_parse.go:35-56 | whatever the data, what is shown is well-formed and free of NULs |
| Utf8.ValidIff | internal/httpapi/content_parse.go:40-42 | well-formed are exactly the encodings of sequences of code points that are no surrogates |
| ObjectWindow.FullWindowSlice | internal/store/s3.go:103-120 | from a whole object the window and its flag are cut exactly |
| ObjectWindow.GetServes | internal/store/s3.go:34-101 | the 200, 206 and 416 paths yield the same slice, and the flag is set exactly when the object goes on and the answer shows it |
| ObjectWindow.RangeTotalOf | internal/store/s3.go:122-142 | a Content-Range header in the form of the standard is read back to its total |
| ObjectWindow.UnknownTotal | internal/store/s3.go:122-142 | a header that leaves the total open tells none |
| ObjectWindow.WindowServes | internal/store/store.go:67-114 | a reader gets the slice under the effective limit, and the clipped flag tells the truth exactly under the stated condition on the answer and the locator size |
| ObjectWindow.AnswersAgree | internal/store/store.go:97-113 | with the object's size in the locator every correct answer gives the one right content |
| ObjectWindow.FetchRefuses | internal/store/store.go:74-114 | every other way a fetch ends: nothing shown, nothing clipped, and the reason of the first thing that is wrong |
| ObjectWindow.NegativeOffset | internal/store/s3.go:34-40 | a negative offset asks for the beginning |
| Paging.WindowOf | internal/httpapi/content.go:132-152 | whatever the parameters, the offset is not negative and the limit lies between one and the maximum, if that is positive |
| Paging.WindowOfNumbers | internal/httpapi/content.go:132-152 | for numbers as clients write them: too large ones are cut, a negative offset is the beginning, a missing limit is 32768 bytes, and no limit exceeds the maximum |
| Paging.TextPage | internal/httpapi/content.go:154-186 | a page of text is the slice up to a character boundary, moves on, and is clipped exactly when offset plus returned is short of the size |
| Paging.BinaryPage | internal/httpapi/content.go:174-186 | a page that is not text counts the bytes of its window, so that moving on by them misses none, and is clipped exactly when more follow |
| Paging.PagingReconstructsIff | internal/httpapi/content.go:130-186 | reading page by page ends with pages of text that add up to the body exactly when the body is NUL-free well-formed UTF-8 |
| Paging.FlagTellsIff | internal/httpapi/content_parse.go:35-56 | of any object: whether a page of text is clipped agrees with whether offset plus returned is short of the size if and only if the object goes on behind the window or what is left is well-formed |
| Paging.ReadingTellsIff | internal/httpapi/content.go:154-186 | a reading that comes to its end by pages of text has read a well-formed, NUL-free front of what is left, and all of it exactly when that is well-formed |
| Paging.CutTailIsLost | internal/httpapi/content_parse.go:44-56 | for instance a letter and two of the three bytes of a character read as the letter alone, and complete |
| ArgsWindow.ParseArgs | internal/httpapi/content.go:214-233 | the loop keeps the parts that are not empty and splits each at its first equals sign |
| ArgsWindow.QueryReads | internal/httpapi/content.go:214-233 | every query string written of names and values, with any choice of escapes, is read back to them in order |
| ArgsWindow.ArgsJoin | internal/httpapi/content.go:214-233 | the arguments of two texts joined by an ampersand are those of the one and then of the other |
| ArgsWindow.TwoWindows | internal/httpapi/content_parse.go:18-33 | for every cut the arguments are those the first window completes, the one the cut falls in, and those the second window reports |
| ArgsWindow.WindowsStitch | internal/httpapi/content_parse.go:18-33 | however a query string is cut into windows, carrying the open argument over gives its arguments |
| ArgsWindow.AnswersJoin | internal/httpapi/content_parse.go:18-33 | the continuation extends the last value to the right arguments when the cut falls in a value or on an ampersand and splits no escape |
| Percent.SeamIff | internal/httpapi/content.go:235-241 | unescaping two parts gives what unescaping the whole gives exactly when no escape is cut and, if one is broken somewhere, neither part is changed |
| Percent.HexDigits | internal/httpapi/content.go:235-241 | the digits of an escape are those of 0 to 15 in either case |
| Percent.UnescapeReads | internal/httpapi/content.go:235-241 | a text is read back however its bytes are escaped, and one with a broken escape is left as it is |
| ArgsWindow.AnswersJoinIff | internal/httpapi/content_parse.go:18-33 | for every text and cut the two answers join to the arguments exactly when the second window opens with an ampersand or the cut falls into a value without a seam |
| ArgsWindow.CutBehindAmpersand | internal/httpapi/content_parse.go:18-33 | cut behind its ampersand, a=1&b=2 joins from the two answers to one wrong argument instead of two |
| Like.EscapeFaithful | internal/query/query.go:869-871 | the pattern built for a text matches exactly the texts that contain it, wildcards and backslashes included |
| Like.WildcardsFind | internal/query/query.go:869-871 | without the escape the wildcards would find what is not there |
| IpRange.Range | internal/query/query.go:503-519 | setting bit by bit what lies behind the prefix gives its low and high end |
| IpRange.RangeExact | internal/query/query.go:503-519 | a 128-bit address is between the ends exactly when it agrees with the prefix on its bits, IPv4 in mapped form; the ends meet exactly for a whole address |
| IpRange.MappedIs | internal/query/query.go:503-519 | an IPv4 prefix stands for addresses with ten zero bytes and two full ones in front |
| FilterNames.NamesDistinct | internal/query/query.go:716-867 | no two parameters of a query share a name, numbered families included |
| FilterWhere.IpClause | internal/query/query.go:521-562 | the loop builds the list of whole addresses and of ranges, skipping what does not parse |
| FilterWhere.IpMeans | internal/query/query.go:521-562 | the disjunction built for a list of prefixes holds exactly when the address lies in one of them |
| FilterCompile.SplitAtColon | internal/query/query.go:310-316 | an identity is split at its first colon, further colons staying in the user |
| FilterWhere.UserForms | internal/query/query.go:793-804 | a user without a colon is looked for anywhere, one behind a colon alone likewise, and one with a source only in a session of that source |
| FilterWhere.VarClauses | internal/query/query.go:814-820 | the loop builds one clause and two numbered parameters a variable |
| FilterWhere.NamedClauses | internal/query/query.go:822-852 | the loops over headers and parameters build a membership clause for an empty value and an equality for any other |
| FilterWhere.Compile | internal/query/query.go:716-867 | clause after clause under its literal parameter name, with the early return behind the node when a ray is given, the result is the specified one |
| FilterWhere.CompilePage | internal/query/query.go:919-933 | the page is bound as limit and offset behind all other parameters |
| FilterWhere.PageBound | internal/query/query.go:919-933 | the page is bound under limit and offset, whatever the filter |
| FilterWhere.WherePreservesMeaning | internal/query/query.go:716-867 | every name is bound once, and the conjunction of the clauses under these bindings selects exactly the rows the filter asks for, with and without a ray, with and without a page |
| Normalize.Parse | internal/query/query.go:454-501 | the loops of both list parsers give the first canonical forms up to the cap, each once, in order |
| Normalize.ListedSettles | internal/query/query.go:454-501 | a parsed list holds distinct words, each its own canonical form, and respects the cap |
| Normalize.ListedFixedIff | internal/query/query.go:454-501 | a list is left alone exactly when it is of this kind |
| Normalize.NetworksMean | internal/query/query.go:476-501 | every network kept parses, and unless the cap cut them or none is left they cover exactly the addresses of the networks named |
| Normalize.NoNetworkIff | internal/query/query.go:476-501 | no network is left exactly when no word names one, and the filter is then that of a caller who gave none |
| NormalTold.CoversTold | internal/query/query.go:564-591 | a word covers the addresses of the network it names, or the one address it is, IPv4 in mapped form |
| NormalTold.FieldsJoin | internal/query/query.go:454-501 | comma, semicolon, space, line end and tab part words |
| NormalTold.OneField | internal/query/query.go:454-501 | and nothing else does: text without any of them is one word |
| NormalTold.WordsListed | internal/query/query.go:454-474 | a list of words holds words given, each once, and all of them if they are not too many |
| Normalize.NetFormStable | internal/query/query.go:564-591 | the printed form of a parsed network is one word, parses, and is its own form |
| Normalize.Keep | internal/query/query.go:363-419 | the loops keep the first sixteen entries with a good name, under its form |
| Normalize.KeptFixedIff | internal/query/query.go:363-419 | entries are left alone exactly when they are few enough and each name is good and in its form |
| Normalize.AsciiNamesSettle | internal/query/query.go:391-419 | after one pass ASCII header names are good and in lower case |
| Normalize.KeptSettleIff | internal/query/query.go:391-419 | whether the names one pass leaves are good and in their form can be told from the first sixteen good names it is given |
| Normalize.GrownNameIsLost | internal/query/query.go:391-419 | a filter by a header named 64 times U+023A asks for a name of 192 bytes after the first pass and for no header after the second |
| Normalize.Normalize | internal/query/query.go:232-296 | every field of the filter after the pass, clamps, lists and default times included |
| NormalTold.FieldsTold | internal/query/query.go:232-296 | field by field what is left: limits, defaults, fixed sets of words, the day behind a missing start, and what is not touched |
| NormalTold.NamesTold | internal/query/query.go:363-419 | of variables, headers and parameters the first sixteen with a good name are kept, in order, with their values |
| NormalTold.MethodTold | internal/query/query.go:251-256 | a method in letters of any case with blanks around it is that method, anything else none |
| NormalTold.CountryTold | internal/query/geo.go:10-24 | a country is two letters of any case, kept in lower case, anything else none |
| NormalTold.SessionTold | internal/query/query.go:300-308 | a user or session is kept without the blanks around it, unless it is too long or cannot be printed |
| Normalize.NormalizedFixedIff | internal/query/query.go:232-296 | the pass leaves a filter alone exactly when it is normal: every text, number and list of it meets its own stated condition |
| Normalize.NormalizedIsNormal | internal/query/query.go:232-296 | what comes out of the pass is normal, but for header names that lower case has spoilt |
| Normalize.NormalizeTwiceIff | internal/query/query.go:232-296 | a second pass at any later time changes nothing exactly when each of the first sixteen good header names of the filter given stays good and keeps its form in lower case |
| Normalize.NormalizeTwice | internal/httpapi/audit.go:36-36 | with ASCII header names the pass of the handler and that of the reader are one |
| ReadSide.Scan | internal/query/finding.go:260-335 | the loop keeps the first row of every key, in order |
| ReadSide.DedupInPlace | internal/query/query.go:632-651 | the kept rows are moved to the front of the same array |
| ReadSide.PageServedIff | internal/query/finding.go:145-157 | a page, wherever it begins, is a run of the table with FINAL exactly when no two rows on it are shown alike and differ in the sort key, and shorter than that run if not |
| ReadSide.PagesServedIff | internal/query/finding.go:145-157 | paging to the end lists what the sort key would give exactly when every page tells its sort keys apart; then it is the table with FINAL, and one row again for each page boundary between two copies |
| FinalPages.PagesAreFinalIff | internal/query/finding.go:145-157 | paging to the end gives the table with FINAL itself exactly when, on every page, the first row of a sort key is passed over just for the key that goes on with the next page |
| Listing.FindingOrderStrict | internal/query/finding.go:26-27 | the order of findings is a strict total order of the sort keys |
| Listing.RowOrderStrict | internal/query/query.go:52-65 | so are both orders of requests |
| Listing.FindingOrderIs | internal/query/finding.go:26-27 | findings go down by time, node, ray, phase, inspector, index, direction and number, in this order of columns |
| Listing.RowOrderIs | internal/query/query.go:52-65 | requests by time, node, ray, phase, direction and number, up or down |
| Listing.TwoRowsIff | internal/query/query.go:617-630 | two requests are listed as one exactly if they agree in node, ray and phase and, for frames, in direction and number |
| Listing.TwoFindingsIff | internal/query/finding.go:260-335 | two findings exactly if they agree in all columns of the sort key but the time stamp |
| Listing.RequestsServed | internal/query/query.go:632-651 | of every request on a page one alike is served and no two that are alike, so requests of two rays or two nodes are always both served |
| Listing.FindingsServed | internal/query/finding.go:260-335 | the same of findings |
| Listing.FindingsPageIff | internal/query/finding.go:260-335 | a page of findings is a run of the table with FINAL exactly when no two findings on it share all columns shown and differ in the time stamp, and shorter if not |
| Listing.FindingsPagesIff | internal/query/finding.go:145-163 | so paging to the end gives the table with FINAL, but for copies across a page boundary, exactly when every page tells its findings apart |
| Listing.RequestsPageIff | internal/query/query.go:622-651 | a page of requests, in either order, is a run of the table with FINAL exactly when no two on it agree in node, ray, phase and frame and differ in the sort key |
| Listing.RequestsPagesIff | internal/query/query.go:919-939 | and paging to the end gives that table, but for copies across a page boundary, exactly when every page tells its requests apart |
| Listing.FindingsAreFinalIff | internal/query/finding.go:145-163 | so much for the pages of findings, with the columns they are shown by |
| Listing.RequestsAreFinalIff | internal/query/query.go:622-651 | and for the pages of requests, in either order |
| Listing.TimeStampHides | internal/query/finding.go:260-335 | two findings that differ in the time stamp alone are counted as two and listed as one |
| Listing.PageSizeHides | internal/query/finding.go:145-157 | the same two are one finding on a page of two and both there on pages of one |
| Listing.CopyComesBack | internal/query/finding.go:145-157 | with a second copy of the older one behind the boundary, pages of two are the table with FINAL although the first passes a finding over |
| OneRow.One | internal/query/query.go:653-686 | from the rows in the order of the list the loop finds the first row of the request phase on a list of at most eight raw rows, or the first row |
| OneRow.OneShowsRequestIff | internal/query/query.go:653-688 | a link without a phase shows the newest request row exactly when fewer than eight raw rows of the ray, copies counted, stand before it |
| OneRow.RequestIsMissed | internal/query/query.go:653-688 | of a request followed by eight frames the link shows a frame |
| OneRow.CardHasAllIff | internal/query/finding.go:170-198 | a card has all findings of its ray exactly when each behind the first thousand is shown like one of them |
| OneRow.FullEventIsCut | internal/query/finding.go:198-198 | of the 1024 distinct findings one event may bear it has 1000 |
| Sorting.SortStrings | internal/model/row.go:513-519 | the swapping loops leave the array sorted by insertion |
| Sorting.SortedSorts | internal/model/row.go:513-519 | distinct names come out strictly sorted |
| Sorting.SortedAlike | internal/model/row.go:513-519 | two enumerations of the same names sort alike |
| Sorting.SortedKeys | internal/query/card.go:329-343 | whatever order the map hands its keys out in, the result is their one strictly sorted list |
| Strings.LessIs | internal/model/row.go:513-519 | the order of names: a proper front first, else the lesser byte at the first difference |
| Preview.FoldPairs | internal/model/row.go:551-584 | every name maps to its values in arrival order, joined by comma and space; the cut list is strictly sorted and holds exactly the names with a truncated value |
| Preview.FoldDetermined | internal/model/row.go:551-584 | that contract leaves one result, which pairs under other names do not influence |
| Preview.FoldTells | internal/model/row.go:551-584 | a preview has an entry for every name but the empty one, joined of the values that came under it, in order, and lists a name as cut exactly if one of them was |
| Preview.JoinTwo | internal/model/row.go:572-577 | one value joins to itself, joined lists join with one comma and space |
| JsonObject.QuotedReads | internal/model/row.go:493-506 | a name quoted as json.Marshal quotes it reads back, whatever follows |
| JsonObject.QuotePlain | internal/model/row.go:493-506 | a quoted name holds no control character, nothing that HTML reads and no line separator |
| JsonObject.SplitInverts | internal/model/row.go:476-511 | splitting the printed members gives back their names and raw values |
| Spread.FoldRewrites | internal/model/row.go:476-511 | the object text lists the members sorted by name, quoted, each separated by one comma |
| Spread.SpreadInspectors | internal/model/row.go:426-474 | each column holds exactly the entries that carry its field, for any order of the map |
| Spread.OrderFree | internal/model/row.go:426-519 | every order of the maps leaves the same columns, byte for byte, and the inspector list is strictly sorted and holds all names but the module's own |
| Spread.RewritesReadBackIff | internal/query/card.go:85-97 | the card gets back every stored rewrite, decoded, exactly when each of them decodes, and none otherwise |
| Spread.OneSpoilsAll | internal/query/card.go:85-97 | of two inspectors, one with a rewrite object and one with a bare number, neither has a rewrite on the card |
| Card.FindingsOfPhase | internal/query/card.go:69-83 | the findings of the phase, in order, and all of them when there is no phase |
| Card.TallyOf | internal/query/card.go:225-249 | one pass leaves, for every name, its findings in order, its greatest engine time, its first profile and whether it reported clean |
| Card.Seated | internal/query/card.go:251-288 | the loop seats each roster name once, at its first occurrence |
| Card.Unseated | internal/query/card.go:290-302 | the names only findings give follow in sorted order |
| Card.CardOf | internal/query/card.go:201-307 | the whole card: roster, orphans, count, and actions over the findings of the event's phase |
| Card.ActionsOf | internal/query/card.go:140-199 | grouping reports in a map gives each action what a scan of all reports for its key gives |
| CardFacts.CardConserves | internal/query/card.go:201-307 | the findings on the card are, as a multiset, the findings of the phase that are not clean reports |
| CardFacts.CardArranged | internal/query/card.go:201-307 | names are distinct, each participant has its own findings in order, the roster comes first, and orphans come last, strictly sorted, each with a finding |
| CardFacts.SelfFirst | internal/query/card.go:251-270 | the module stands first if it gave a verdict, and nobody else is marked as the module |
| CardFacts.CleanMeans | internal/query/card.go:284-284 | a seat is clean exactly when the inspector reported and reported nothing but clean |
| CardFacts.EngineIsGreatest | internal/query/card.go:235-237 | the engine time is the greatest reported, and zero if none is greater |
| CardFacts.CardOfSpread | internal/query/card.go:251-258 | the roster of an event written by the logger is the module if it gave a verdict and then every other inspector, sorted, with none dropped |
| CardFacts.OutcomesShown | internal/query/card.go:140-199 | an outcome is on an action exactly when a report of the phase gives it for the action's key |
| CardTold.FindingsTold | internal/query/card.go:201-307 | a participant is shown with the findings it reported in the phase of the event, or without a phase, that are not clean: all of them, in the order they came |
| CardTold.EveryoneShown | internal/query/card.go:201-307 | and each such finding stands under its inspector |
| CardTold.SeatTold | internal/query/card.go:260-288 | from payload to card: a participant shows the verdict, state, score, latency, role and profile of its own entry, and is decisive if the event names it |
| CardTold.ProfileIsFirst | internal/query/card.go:239-241 | the profile the findings give is that of the first one that names one |
| CardTold.SeatIsItem | internal/query/card.go:290-302 | the rest of the card are participants only findings name, with nothing but what these say |
| CardTold.ActionTold | internal/query/card.go:140-199 | an action is shown as it stands in the record, with every outcome reported for its key, in the order of findings and reports, each with its inspector |
| Migrate.OrderSurvives | internal/migrate/migrate.go:45-96 | in every reachable state, the lock violated or not: recorded versions have been executed, are downward closed in the order of names, and no file ran before all that sort before it |
| Migrate.FinishedIsComplete | internal/migrate/migrate.go:45-96 | a replica that reaches the end of the list leaves every version executed and recorded |
| Migrate.OwnershipStep | internal/migrate/migrate.go:98-179 | from a state in which the lock is respected a step keeps it so exactly if it does not drop a live holder's table |
| Migrate.ExclusionIff | internal/migrate/migrate.go:98-179 | the lock is respected throughout a run exactly when no stale drop of the run hits a live holder's table |
| Migrate.HarmLetsTwoIn | internal/migrate/migrate.go:98-179 | whoever drops a live holder's table can take the lock at once, and both are between lock and unlock |
| Migrate.LockProtects | internal/migrate/migrate.go:98-179 | without such a drop at most one replica is between lock and unlock and every version is recorded at most once |
| Migrate.EmptyTableRace | internal/migrate/migrate.go:163-179 | because an empty lock table counts as stale two replicas can both get in and record a version twice |
| Migrate.JudgedIff | internal/migrate/migrate.go:163-179 | who asks for the age of the lock goes on to drop it exactly if there is no table, no beat in it, or the last beat is too old, whoever owns it |
| Migrate.DropsWereJudged | internal/migrate/migrate.go:98-135 | in every run a replica about to drop the lock judged it so in its last step: a table seen with a beat not too old is never dropped |
| Migrate.BeatProtects | internal/migrate/migrate.go:137-161 | after a beat who looks before it is too old goes back to wait |
| Migrate.TakeOver | internal/migrate/migrate.go:98-135 | from every reachable state whose lock no live holder owns a waiting replica gets in by its own steps, if the last beat is too old, and harms nobody |
| Migrate.TakeOverFinishes | internal/migrate/migrate.go:45-135 | and goes on by its own steps to the end of the list with every version executed and recorded |
| Migrate.UnlockLetsIn | internal/migrate/migrate.go:149-156 | who is done lets the next one in at once |
| Migrate.Database.Apply | internal/migrate/migrate.go:60-96 | the loop over the files leaves the logs and the result of its specification, for any way its statements end |
| Migrate.LoopIsRun | internal/migrate/migrate.go:60-96 | that loop is a run of the transition system, ending at the unlock with the same logs |
| Migrate.AppliedOnce | internal/migrate/migrate.go:60-96 | applying a complete schema again executes nothing |

## Left out

- The clients of NATS and ClickHouse, request signing, HTTP routing and the writing of responses: their outcomes are parameters or nondeterministic steps.
- Clocks and waiting (tickers, AckWait, the age of a lock): events that may happen at any time; the server may deliver any message at any time, also one that is acked.
- Background merges and the expiry of rows: a read with FINAL is the only view of collapsed rows, and no row expires.
- Rounding: time stamps are kept as parsed, not cut to the resolution of their column; engine times and latencies are reals.
- `encoding/json`: payloads, header lists and reports enter decoded.
- Spread.RewritesReadBackIff: decoding one raw value as a rewrite is a parameter; of a stored raw value it is used that its brackets and strings are closed; white space between the members is not read, since none is written.
- A table that changes while a client pages through it: all pages are pages of one answer.
- HeaderStrict.AgreesWithStrictIff: the strict decoder is modelled on documents of the grammar; what it refuses and the tolerant reader still reads has no strict reading to compare with.
- The empty header list, which only the strict decoder handles.
- ArgsWindow.AnswersJoin: for any decoder, that it does not join across the cut is a premise; ArgsWindow.AnswersJoinIff says for the real one when it does.
- Normalize.NormalizeTwice: lower case of text that is not ASCII is a parameter, and one character stands for one byte, so a body cut inside a character is not modelled.
- Normalize.NetFormStable: the two address parsers and the printer are parameters; used is that a printed masked prefix parses back and is one word.
- FilterWhere.WherePreservesMeaning: clauses are an abstract syntax evaluated on rows; the text of the query and the binding on the wire are not modelled, and lower case is that of ASCII.
- The filter of findings (`whereFinding`, `NormalizeFinding`), groups, counts by column and the dictionaries for country and network: more clauses of the same kinds, or semantics of the database.
- Card.CardOf: fields that are only copied from the event are not modelled.
- The columns of rows outside the sort keys, which `FromRequest` and the inserts copy; they stand as one opaque value.
- Migrate.Database.Apply: the background heartbeat and the lock are steps of the transition system, not of this method; substitution in the text of a file is not modelled.
- The locator, the choice of the object of a kind and the preview of bodies as base64.

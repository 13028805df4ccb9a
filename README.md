# rsbench ingestion core in Dafny

This project models the ingestion side of rsbench, a benchmark that loads
Wikipedia abstracts, StackExchange posts, Reddit comments or tweets into a
RediSearch index, and proves properties of that model. It covers three layers:

- **Directory walk** (`FolderReader`). `processPath` and `processDir`
  produce the input files. At level 0 a file is sent whatever the pattern
  says. Below level 0 a file is sent only when its base name matches the
  pattern. A failing `os.Stat`, an unlistable directory or a malformed
  pattern panics.
- **Parser worker** (`FolderReader.Loop`). It opens each path, chooses a
  decompressor from the file extension and builds a document reader. It
  forwards documents until the reader returns an error.
- **Readers.** There is one per corpus (`StackExchange`, `Wikipedia`,
  `Reddit`, `Twitter`). Each turns what its decoder hands out into one
  redisearch document per `Read` call:
  - StackExchange builds one document per `row` element, from the row's
    attributes;
  - Wikipedia builds one per accepted `doc` page;
  - Reddit builds one per JSON comment;
  - Twitter builds one per JSON tweet that decodes.
- **Batching indexer** (`Indexer.Indexer.Loop`). It drops documents with an
  empty id and fills a reused chunk of `chunkSize` documents. When the chunk
  is full it submits it. It then updates the shared uint64 counters and
  sometimes writes a report row.

The Go standard library pieces the core relies on are modelled from their
documented behaviour in three modules:

- `GoStrings`: `strings.HasPrefix`, `Contains`, `TrimPrefix`, `Trim`,
  `TrimRight`, `TrimSpace` and `Join`;
- `GoPaths`: `path.Base`, `filepath.Ext`, and `filepath.Match` for patterns
  made of literals and `*`;
- `GoStrconv`: `strconv.ParseInt` and `FormatInt` in base 10, 64 bits.

Decoders are not modelled. Each reader holds the sequence of results its
decoder will return. Once that sequence is used up, the decoder reports
io.EOF. Every reader is proved against a specification function of its
input sequence: `NextRow`, `NextPage`, `ReadComment` or `NextTweet`.

Collaborators outside the core become parameters. These are the filesystem
behind the walk, `filepath.Join`, the document reader opener,
`IndexOptions`, the clock, `EstimateSize`, `strip.StripTags` and
`time.Parse`.

In a few places the code does something other than what one would expect
of an ingestion pipeline. The model follows the code:

- One would expect the partial chunk left when the channel closes to be
  flushed. `Indexer.loop` never submits it. A stream of M kept documents
  gives floor(M/K) submissions, not ceil(M/K), and the last M mod K
  documents are dropped (`BatchesCount`).
- One would expect a file whose document reader cannot be built to be
  skipped. Instead the worker `return`s from `loop` without calling
  `wg.Done` (`FolderReader.WorkerOutcome`).
- `filepath.Ext` keeps the dot, but the worker compares the extension with
  `"bz2"` and `"gz"`. So the worker's extension switch never wraps a file
  in a decompressor, and its gzip panic cannot happen
  (`FolderReader.WrappingAlwaysPlain`). The Reddit and Twitter openers
  still apply their own bzip2 layer.
- `path.Base` never returns "", so the `len(id) > 0` test of the Wikipedia
  reader always holds. A page without a `url` gets the id "."
  (`Wikipedia.AcceptsIffFilter`).

## Model

| member | source | states |
|---|---|---|
| GoStrings.ContainsIff | parser/wikipedia.go:16 | strings.Contains holds exactly when the substring occurs at some position, in both directions |
| GoStrings.TrimPrefix | parser/wikipedia.go:58 | a string with the prefix loses it once; any other string is returned unchanged |
| GoStrings.TrimLeftShape | parser/stackxc.go:52 | TrimLeft leaves the longest suffix that does not start with a cut character; everything removed is a cut character |
| GoStrings.TrimRightShape | parser/stackxc.go:52 | TrimRight leaves the longest prefix that does not end with a cut character; everything removed is a cut character |
| GoStrings.TrimEndsShape | parser/stackxc.go:52 | the result of Trim/TrimSpace neither starts nor ends with a cut character and only holds characters of the input |
| GoStrings.TrimEndsUntouched | parser/reddit.go:22 | a string whose ends are not cut characters is left alone |
| GoStrings.TrimEndsWrapped | parser/reddit.go:22 | wrapping a string in one cut character on each side does not change what Trim returns |
| GoStrings.TrimSpace | parser/wikipedia.go:58-59 | the result has no white space (unicode.IsSpace) at either end |
| GoStrings.Join | parser/stackxc.go:54 | joining no elements gives "", joining one element gives that element |
| GoStrings.JoinCons | parser/stackxc.go:54 | joining an element in front of a non-empty list puts the separator between it and the join of the rest, so with Join's cases for 0 and 1 elements the result is the elements with the separator between each pair |
| GoStrings.JoinAvoids | parser/twitter.go:144 | a character in no element and not in the separator is not in the joined string |
| GoPaths.LastElement | parser/wikipedia.go:56 | the slash-free suffix after the last slash |
| GoPaths.Base | parser/wikipedia.go:56 | path.Base is never empty, and is "/" or slash-free |
| GoPaths.BaseOfChild | parser/wikipedia.go:56 | the base of `dir/name` is `name` for a non-empty slash-free name |
| GoPaths.ExtShape | indexer/folder_reader.go:76 | filepath.Ext is "" or a suffix of the path that starts with '.' and has no '/' |
| GoPaths.ExtOfDotted | indexer/folder_reader.go:76 | the extension of `stem.e`, with e free of '.' and '/', is ".e" with the dot |
| GoPaths.GlobLiteral | indexer/folder_reader.go:55 | a pattern without `*`, `?`, `[` or backslash matches exactly itself |
| GoPaths.GlobStarSuffix | indexer/folder_reader.go:55 | `*suffix` matches exactly the slash-free names that end in the suffix |
| GoStrconv.ScanUintSpec | parser/reddit.go:24 | the digit scan succeeds exactly on digit strings whose value fits in uint64, with that value; on a digit string it can fail only with a range error |
| GoStrconv.ParseIntSpec | parser/reddit.go:24 | ParseInt accepts exactly an optional sign and one or more digits whose value is an int64, yields that value, and otherwise fails with a syntax or range error |
| GoStrconv.FormatUintDigits | parser/reddit.go:24 | the decimal rendering is a non-empty digit string whose value is the number |
| GoStrconv.ParseFormatInt | parser/reddit.go:24 | every int64 parses back from its decimal rendering |
| Indexer.AddU64 | indexer/indexer.go:84-87 | uint64 addition stays below 2^64 and is exact when there is no overflow |
| Indexer.SubU64 | indexer/indexer.go:97 | uint64 subtraction stays below 2^64 and is exact when there is no underflow |
| Indexer.KeptIds | indexer/indexer.go:67-70 | every document the loop keeps has a non-empty id |
| Indexer.Leftover | indexer/indexer.go:64-73 | fewer than chunkSize documents, and no more than were kept, remain after the last full chunk |
| Indexer.AfterSubmitSpec | indexer/indexer.go:75-110 | after a failed IndexOptions call nothing changes. After a successful one the counter grows by chunkSize and the total latency by the latency, both in uint64. A row is written exactly when the new counter is a multiple of 1000 and more than 5 s have passed; it then resets lastCount, lastDataSize and lastTime. Otherwise lastDataSize grows by the chunk's size. The counters stay below 2^64 |
| Indexer.BatchesSnoc | indexer/indexer.go:71-74 | one more kept document completes a chunk exactly when n - 1 were pending, and otherwise only adds to the pending ones |
| Indexer.FillIsBatches | indexer/indexer.go:64-74 | the step-by-step chunk filling submits exactly Batches(Kept(docs), n), and the pending documents are the last Leftover kept ones |
| Indexer.BatchesLength | indexer/indexer.go:64-74 | the kept documents are n per submitted chunk plus the leftover |
| Indexer.BatchAt | indexer/indexer.go:71-74 | the j-th submitted chunk is the j-th group of n consecutive kept documents, in arrival order |
| Indexer.BatchesCount | indexer/indexer.go:64-74 | M kept documents give floor(M/n) submissions, and M mod n documents are never submitted |
| Indexer.EmptyIdNeverSubmitted | indexer/indexer.go:67-78 | no submitted chunk holds a document whose id is empty |
| Indexer.RunCounters | indexer/indexer.go:83-86 | over a run, the counter grows by n per successful submission and the total latency by each successful latency, modulo 2^64; failed submissions change neither |
| Indexer.RunReports | indexer/indexer.go:86-108 | every row written carries a counter that is a multiple of 1000 and a window of more than 5 s |
| Indexer.Indexer.constructor | indexer/indexer.go:117-142 | zero counters, lastTime the current time, no calls and no rows |
| Indexer.Indexer.ChunkSize | indexer/indexer.go:81-84 | the loop sums EstimateSize over the chunk in uint64 |
| Indexer.Indexer.Submit | indexer/indexer.go:75-110 | the chunk is handed to IndexOptions, and the counters and rows become those AfterSubmit gives |
| Indexer.Indexer.Take | indexer/indexer.go:67-110 | one turn of the loop keeps the state in step with FillStep and Run: documents without id are skipped, and a full chunk is submitted and dx reset |
| Indexer.Indexer.Loop | indexer/indexer.go:61-115 | the calls made are Batches(Kept(docs), chunkSize) in order, and the counters and rows are those of Run over them |
| FolderReader.Selected | indexer/folder_reader.go:57-60 | every selected path is the path of a leaf that is sent |
| FolderReader.SelectedAppend | indexer/folder_reader.go:40-43 | the selection of two leaf lists one after the other is their selections one after the other |
| FolderReader.WalkAgainstLeaves | indexer/folder_reader.go:32-65 | the walk panics exactly when some entry cannot be statted, some directory cannot be listed or the pattern is malformed. It always sends a prefix of the level-0-or-matching files in depth-first listing order, and all of them when it does not panic |
| FolderReader.EntriesAgainstLeaves | indexer/folder_reader.go:40-43 | the same for the loop over a directory's entries |
| FolderReader.LeafLevels | indexer/folder_reader.go:42 | files below a directory sit deeper than the level the walk entered it at |
| FolderReader.LeafLevelsOf | indexer/folder_reader.go:40-43 | the files under a directory's entries sit at least at the entries' level |
| FolderReader.DirRootSendsOnlyMatches | indexer/folder_reader.go:52-60 | when the configured folder is a directory, every path sent names a file whose base name matched |
| FolderReader.XmlWalkSendsXml | indexer/folder_reader.go:52-60 | with filepath.Match for the pattern `*.xml` and a directory root, every path sent names a file whose slash-free base name ends in ".xml" |
| FolderReader.FileRootAlwaysSent | indexer/folder_reader.go:55-63 | a configured path that is a file is sent whatever the pattern says, unless the pattern is malformed |
| FolderReader.WrappingAlwaysPlain | indexer/folder_reader.go:76-89 | the worker's extension switch never wraps a file in a bzip2 or gzip reader |
| FolderReader.ErrorFreePrefix | indexer/folder_reader.go:95-102 | the successful Read results before the first error, in order |
| FolderReader.ErrorFreePrefixUnique | indexer/folder_reader.go:95-102 | the error-free prefix is the only prefix that stops at an error or at the end |
| FolderReader.ForwardDocuments | indexer/folder_reader.go:95-102 | the `for err == nil` loop sends exactly the error-free prefix and stops with the first error, or io.EOF |
| FolderReader.PathsDone | indexer/folder_reader.go:68-94 | the number of leading paths before the first one at which the worker returns or panics |
| FolderReader.SentByTail | indexer/folder_reader.go:68-105 | what the first k paths send is what the first path sends followed by what the next k - 1 send |
| FolderReader.WorkerOutcome | indexer/folder_reader.go:67-108 | the worker sends, in order, the error-free prefix of each file it could open, up to the first file whose reader cannot be built, and nothing for a file it could not open. It then returns without wg.Done, or reaches wg.Done when the paths run out; it never panics |
| FolderReader.Loop | indexer/folder_reader.go:67-109 | the worker's sends and exit are those of Worker over its paths |
| StackExchange.FirstClose | parser/stackxc.go:49 | the position of the first '>', or none when there is no '>' |
| StackExchange.MatchHere | parser/stackxc.go:49 | a match found at the start is `<`, a non-empty group without `>`, and `>` |
| StackExchange.FindAllShape | parser/stackxc.go:49 | every match of `<([^>]+)>` is '<', a non-empty group without '>', and '>' |
| StackExchange.TagsOf | parser/stackxc.go:49-53 | one tag per match |
| StackExchange.ProcessTags | parser/stackxc.go:48-55 | processTags returns the trimmed matches joined with "," |
| StackExchange.NoGroupNoTags | parser/stackxc.go:48-55 | there are no matches exactly when no '<', non-'>', ..., '>' starts anywhere in the input, and then the tags are "" |
| StackExchange.MatchAtShift | parser/stackxc.go:49 | a match start shifts by one when the first character is dropped |
| StackExchange.TagShape | parser/stackxc.go:52 | every tag is free of '>' and neither starts nor ends with '<' or '>' |
| StackExchange.TagsRoundTrip | parser/stackxc.go:48-55 | tags without '<' or '>' written as `<a><b>…` come back unchanged and in order |
| StackExchange.TrimBracketed | parser/stackxc.go:52 | trimming "<t>" gives t back |
| StackExchange.TagsOfCons | parser/stackxc.go:49-53 | the tags of a string are the trimmed first match followed by the tags of the rest |
| StackExchange.FindAllBracketed | parser/stackxc.go:49 | the leftmost match of "<t>rest" is "<t>" |
| StackExchange.LastValueAt | parser/stackxc.go:57-60 | a map built from the attributes holds the value of the last attribute with that name |
| StackExchange.LastValueAbsent | parser/stackxc.go:57-61 | a name no attribute carries reads as "" |
| StackExchange.ParseAttrs | parser/stackxc.go:56-71 | the map loop and the document built from it: id from Id, score 1, body the stripped Body, title, tags the processed Tags, score and answers as strings, time the parsed CreationDate's Unix seconds (year 1 when it does not parse) |
| StackExchange.NextRowShape | parser/stackxc.go:72-92 | Read passes over everything that is neither a row nor io.EOF. A nil error comes with the document of the row consumed last. Otherwise it returns the empty document and io.EOF, having stopped at io.EOF or used up an input without rows |
| StackExchange.NextRowFinds | parser/stackxc.go:76-90 | Read returns a document exactly when a row comes before any io.EOF |
| StackExchange.StackExchangeReader.constructor | parser/stackxc.go:32-37 | the reader starts with the whole token sequence |
| StackExchange.StackExchangeReader.Read | parser/stackxc.go:72-92 | the `for err != io.EOF` loop returns what NextRow says and consumes exactly the results NextRow uses |
| Wikipedia.FilterIff | parser/wikipedia.go:13-22 | the filter accepts exactly when the title does not start with "List of", the body does not start with "#REDIRECT" or "#redirect", and "(disambiguation)" occurs nowhere in the title |
| Wikipedia.PageDocAccepted | parser/wikipedia.go:56-67 | an accepted page gives a document with a non-empty id, score 1 and exactly the fields title, body and url. Its title and body pass the filter, and its body and url have no white space at either end |
| Wikipedia.StepStops | parser/wikipedia.go:41-73 | one token stops the loop with a document only at the end of an accepted `doc`, and otherwise only at io.EOF |
| Wikipedia.NextPageShape | parser/wikipedia.go:34-77 | a document Read returns is an accepted page, returned at the end of its `doc` element. Otherwise Read gives the empty document and io.EOF, at io.EOF or at the end of the input |
| Wikipedia.AcceptsIffFilter | parser/wikipedia.go:56-61 | a page is accepted exactly when its trimmed title and abstract pass the filter |
| Wikipedia.FieldRead | parser/wikipedia.go:45-72 | `<name>t</name>` for title, url or abstract stores t under name (t is ignored when it is one character or less) and clears the collected text |
| Wikipedia.DocEndRead | parser/wikipedia.go:54-72 | the end of `doc` returns the page when it passes the filter and otherwise forgets it |
| Wikipedia.PageRead | parser/wikipedia.go:34-77 | a complete page read from a fresh state returns that page's document when the filter accepts it. Otherwise reading continues after the page from a fresh state |
| Wikipedia.WikipediaAbstractsReader.constructor | parser/wikipedia.go:28-32 | the reader starts with the whole token sequence |
| Wikipedia.WikipediaAbstractsReader.Read | parser/wikipedia.go:34-77 | the loop with its page map and collected text returns what NextPage says and consumes exactly the results NextPage uses |
| Reddit.UnmarshalSpec | parser/reddit.go:21-29 | once the quotes at both ends are stripped, an input is accepted exactly when it is a signed decimal int64, and then gives its value. Anything else is a syntax or range error |
| Reddit.UnmarshalFormat | parser/reddit.go:21-29 | every int64, bare or in quotes, unmarshals to itself |
| Reddit.FormatIntEnds | parser/reddit.go:22 | a decimal rendering neither starts nor ends with '"' |
| Reddit.UnmarshalOutOfRange | parser/reddit.go:24 | a number outside int64, bare or in quotes, is a range error |
| Reddit.OutOfRangeInt | parser/reddit.go:24 | ParseInt of a number outside int64 is a range error |
| Reddit.Timestamp.constructor | parser/reddit.go:66 | a fresh timestamp is 0 |
| Reddit.Timestamp.UnmarshalJSON | parser/reddit.go:21-29 | on success the timestamp is the parsed value and the error nil; on failure the timestamp is unchanged and the error returned |
| Reddit.ReadCommentSpec | parser/reddit.go:64-84 | Read succeeds exactly when the comment and its created_utc decode. It then gives id, score, body, author, sub and date from the comment; otherwise the empty document and the error: the decoder's, or UnmarshalJSON's when only created_utc is rejected |
| Reddit.ReadCommentStamped | parser/reddit.go:73-77 | a comment whose created_utc is an int64, quoted or not, is dated with that number |
| Reddit.RedditReader.constructor | parser/reddit.go:55-62 | the reader starts with the whole decode sequence |
| Reddit.RedditReader.Read | parser/reddit.go:64-84 | one Decode: the result of ReadComment on the next decode result, or io.EOF when none is left |
| Twitter.GoQuotSpec | parser/twitter.go:136 | Go's division truncates: the remainder is smaller than the divisor and has the dividend's sign |
| Twitter.TweetDocSpec | parser/twitter.go:131-145 | the document has id_str as id and score 1, copies body, user name, lang, time zone and likes, and holds timestamp_ms/1000 in time. It has a hashtag field exactly when the tweet has hashtags, holding their texts joined with "," |
| Twitter.OneHashTag | parser/twitter.go:139-145 | a single hashtag is stored as it is |
| Twitter.NextTweet | parser/twitter.go:115-155 | Read passes over errors other than io.EOF and returns the first tweet that decodes. At io.EOF, or when the input runs out, it returns the empty document and io.EOF |
| Twitter.NextTweetFinds | parser/twitter.go:118-151 | Read returns a tweet exactly when one decodes before io.EOF |
| Twitter.CollectTags | parser/twitter.go:140-143 | the append loop yields the hashtag texts, one per hashtag, in order |
| Twitter.TwitterReader.constructor | parser/twitter.go:106-113 | the reader starts with the whole decode sequence |
| Twitter.TwitterReader.Read | parser/twitter.go:115-155 | the retry loop returns what NextTweet says and consumes exactly the results NextTweet uses |

## Left out

- Goroutines, channels, `sync.WaitGroup`, `FolderReader.Start` and
  `Indexer.Start`: the model has no concurrency. Each worker is modelled
  alone: the walk returns the sequence of paths it would send, and a worker
  or the indexer consumes a sequence. Backpressure, channel closing and the
  sharing of counters between workers are not captured.
- The atomic operations are plain updates of the `Indexer` fields.
  Interleavings between workers are not modelled.
- The float metrics of a report row: rate, average latency, MB/s and
  `FormatFloat`. The row's first column, `elapsed = time.Since(st)`
  (indexer/indexer.go:63, 89), is not kept either. `Report` holds the
  counter, its growth, the window, the bytes and the total latency. CSV
  writing and logging are left out too.
- The worker never closes the files it opens: `os.Open` at
  indexer/folder_reader.go:73 has no matching `Close`. So each path leaks a
  descriptor. `Files` models an open as a lookup, so it cannot show this.
- `idx.client.IndexOptions`, `time.Now`/`time.Since` and
  `Document.EstimateSize` are parameters (`Indexer.Env`). os.Stat,
  ioutil.ReadDir, os.Open, the opener and the readers' results are the
  `Node` tree and `Files`.
- `filepath.Join` and `filepath.Match` are parameters of the walk.
  `GoPaths.GlobMatch` models Match only for patterns made of literals and
  `*`, with no `?`, classes or escapes.
- The walk lists directories in the order `Node` gives. ioutil.ReadDir's
  sorting by name is not modelled.
- The bzip2 and gzip decompressors of the worker: its extension switch
  never constructs them.
- The bzip2 layer that `RedditReaderOpen` (parser/reddit.go:57) and
  `TwitterReaderOpen` (parser/twitter.go:108) put around their input is
  part of the abstract decode sequence the readers hold. Decompression
  errors are not distinguished from decode errors.
- Indexer.AfterSubmit: the report row's window reuses the clock reading of
  the `time.Since(idx.lastTime) > 5*time.Second` test. indexer.go:90 reads
  the clock a second time for `currentTime`, and the model treats the two
  readings as one.
- Indexer.AfterSubmit: the average latency divides by `idx.counter`
  (indexer.go:91), which panics when the counter has wrapped to 0. That
  panic is not modelled, because the float metrics are left out.
- Indexer.Indexer.constructor: `requires chunkSize >= 1` leaves out Go's
  behaviour for a chunk size of 0 or less, which panics in `make` or at
  `chunk[dx]`.
- indexer/single_file.go, parser/wikipedia_dump.go, main.go and
  query_benchmark.go are not part of this model. Neither are the schema
  constructors (`StackSchema`, `RedditSchema`, `TwitterSchema`).
- The XML and JSON decoders are sequences of results. A real decoder keeps
  reporting a syntax error forever, so a reader that skips errors would loop
  without end; in the model the error is consumed and reading goes on.
- `strip.StripTags` and `time.Parse` are oracles (`StackExchange.Env`).
- Go strings are byte strings; here a string is a sequence of characters.
  Two consequences:
  - the Wikipedia reader ignores CharData of at most one byte, but
    `Wikipedia.Piece` tests at most one character, which differs for a
    single multi-byte character;
  - `unicode.IsSpace` is modelled as its list of code points.
- Reddit.RedditReader.Read: `float32(rd.Score)` is modelled as the exact
  score, without float32 rounding. A comment's fields are decoded into a
  fresh `redditDocument`, as in the code.
- Twitter.TwitterReader.Read: the Go code reuses one `tweet` across the
  decodes of one Read call. A decode that fails part-way can leave fields
  that a later successful decode does not overwrite. The model decodes each
  tweet into fresh fields.
- The JSON decoding of the fields other than `created_utc` and
  `timestamp_ms` is abstract: a decoded `Comment` or `Tweet`, or an error.

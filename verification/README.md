# A verified model of the image host's protocol and storage code

This project models, in Dafny, the parts of the image host in which a mistake is easy to make and hard to
see: the parsers and printers at its edges, the data structures of the bundled Redis client, the connection
pools, and what the request handlers do to the MySQL tables and to the Redis ranking. Every property is
proved for all inputs, all ways to cut the input up, or all runs.

`dafny verify dfyconfig.toml` checks the whole project.

## What is proved

**HTTP** (`Http*.dfy`, `Decimal.dfy`, `Hexadecimal.dfy`; base/http_parser.cc). `Switch` is what one byte does in one
state of the push parser, strict mode; `Connection.Execute` is the loop around it, with mark pointers, re-executed
bytes and bodies taken in bulk. The loop means the same as feeding single bytes; so the way the input is cut up does
not matter, errors and upgrade exits included. No assertion in the source fires from any reachable state. A first line
is accepted exactly if it is a request line (`HttpRequestLine.dfy`), and every line that can stand for a header is
told apart: as a header, with what it says, or as none, with the byte and the error (`HttpLines.dfy`). Requests in a
row, with bodies by length or in chunks with extensions and trailers, are told to the callbacks in order, until one
asks to close the connection; what comes behind that one is refused (`HttpPipeline.dfy`). Responses are read back,
with what they are followed by (`HttpResponse.dfy`). Names, words and characters are those of the RFCs
(`HttpNames.dfy`, `HttpTargets.dfy`), not those of the parser's tables. `HttpUrl*.dfy` and `HttpHost.dfy` model
`http_parser_parse_url`: a URL is accepted exactly if it can be put together from parts that fit, in one way only, and
the fields are those parts, in bounds and in order. The port is the decimal value of its field exactly if no digits
follow the URL in memory (or zeros only): `strtoul` is not told where the URL ends.

**RESP** (`Resp*.dfy`, `Integers.dfy`, `SdsQuote.dfy`, `SdsLine.dfy`; redis/read.c, redis/hiredis.c, redis/sds.c). A
recursive grammar says what a text means: a reply exactly if the bytes are one as it stands on the wire
(`RespWire.dfy`), and an error exactly if the first item that is not whole is broken (`RespFlaws.dfy`). The reader with
its stack of nine tasks refines it: any mixture of `redisReaderFeed` and `redisReaderGetReply` gives exactly the
replies, and then the error, that one parse of all the bytes gives. Replies round-trip to the byte, exactly those
whose arrays are not nested too deeply. The command writers precompute the exact length, write what the reader reads
back, and take the ends of arguments from spaces in the format only. Strict integers and their printing are inverse. A
line is split exactly if it is made of arguments, bare or in quotes of either kind, and quoting is undone by splitting.

**JSON** (`Json*.dfy`, `CStrings.dfy`; jsoncpp). A text is accepted, and read as a value, exactly if it starts with a
document of that value: strings piece by piece as RFC 8259 has them, escapes in any spelling, blanks between the
tokens, and for members of one name the last (`JsonStrings.dfy`, `JsonDocs.dfy`). Both writers produce such texts; so a
value comes back exactly if it is in normal form. The styled writer is a class with the shared buffer `childValues`,
which is empty or holds one text for each element whenever it is read.

**Dictionary and callback queue** (`Dict*.dfy`, `CallbackLists.dfy`, `Async.dfy`; redis/dict.c, redis/async.c).
Linked chains on the heap refine a finite map through every expansion; iteration gives each entry once, also if
the client deletes what it is given. Callbacks run in the order of their acceptance, once each, the k-th with the
k-th reply received or with none; when the context is gone none is left, and the assertion of a clean disconnect
never fires. What has been written and what is still to be written are the accepted commands, in order.

**Connection pools** (`Pool.dfy`; mysql/db_pool.cc, redis/cache_pool.cc). The methods of the pool are the steps of
a system of any number of threads. Over all runs, what is lent is not free and is lent once, nothing is lost, the
size is bounded, a thread waits only while all connections that there may be are lent, and no wake-up is lost: while a thread sleeps on, the free connections can be handed out to
threads that have been notified and have yet to run.

**Application** (`FileTables.dfy`, `FileApi.dfy`, `Ranking.dfy`, `RankingHistory.dfy`, `PvRuns.dfy`, `Multipart.dfy`,
`MultipartLayout.dfy`; the handlers in the directory api). Reference counts equal the number of references over
all runs of operations that succeed, with the exact condition on deletions; instant upload is atomic whatever
statement fails. The ranking in Redis agrees with the table over all sequential runs, exactly as long as only
sharers take files out, and its numbers are told by the history of each file: a row is its first sharer's, with the
downloads since; under any interleaving of downloads no count is lost. The hand-written multipart decoder
recovers the fields of an upload exactly if no value is empty or begins or ends with a line end.

Four results say that the code does less than one might expect, each with its exact condition for all inputs and
a lemma at an input that fails: the port of a URL (`HttpUrlParser.PortExactly`; `StrayDigits`: with "12" behind it in
memory, the port of "http://h:80" is 8012), files taken out of the ranking (`Ranking.ApplyAgrees`; `NotTheSharer`:
anyone may do so), concurrent downloads (`PvRuns.AlwaysIff`: the score is right in the end, however they interleave,
exactly if the file is in the sorted set with the row's value; `MissingFileRace`), and values of an upload
(`MultipartLayout.RoundTrip`; `EmptyIsLost`). `HttpMethod.SearchIsRefused` shows that M-SEARCH is never recognised,
because its name in the table has spaces in it.

Where text is bytes, a `char` below 256 stands for a byte. Field and type names follow the sources.

## Model

| member | source | states |
|---|---|---|
| `HttpRun.ReexecutionDescends` | base/http_parser.cc:684-2066 | A byte that is executed again is so in a state of lower rank: the `goto reexecute_byte` ends |
| `HttpRun.SwitchKeeps` | base/http_parser.cc:684-2066 | One byte keeps the invariant of the parser's fields in every state |
| `HttpRun.SettleKeeps` | base/http_parser.cc:668-2077 | So does a byte with all its re-executions; or the parser fails with an error number |
| `HttpParser.Connection.Execute` | base/http_parser.cc:605-2098 | One call leaves the fields, the count of used bytes and the callbacks that the byte-by-byte meaning says; on an error the callbacks are a prefix of those |
| `HttpParser.Connection.ExecuteByte` | base/http_parser.cc:668-2077 | One round of the loop, bulk bodies included, does what is left to do of the meaning, and the marks fit the new state |
| `HttpParser.Connection.TakeIdentity` | base/http_parser.cc:1887-1922 | Many body bytes taken at once mean the same as one at a time |
| `HttpParser.Connection.TakeChunk` | base/http_parser.cc:2024-2045 | The same inside a chunk |
| `HttpParser.SwitchMarks` | base/http_parser.cc:647-666 | Which marks a step may set or flush is decided by the states on either side; at most one is pending |
| `HttpSplit.RunConcat` | base/http_parser.cc:605-2098 | The meaning of two texts one after the other is that of the first and then of the second |
| `HttpSplit.SplitInvariance` | base/http_parser.cc:605-2098 | Any list of pieces leads to the fields, the events, the exit and the used bytes of the whole text |
| `HttpUpgrade.RunShows` | base/http_parser.cc:1792-1842 | A run ends with the exit for upgrades exactly if it leaves the field `upgrade` set, if it was not set before |
| `HttpSplit.ExecutePieces` | base/http_parser.cc:605-2098 | The same for the buffered loop called once for each piece, until there is an error or `upgrade` is set: fields, used bytes, exit and callbacks are those of the whole text |
| `HttpSplit.MergedEqually` | base/http_parser.cc:2079-2098 | Two event logs are equal after merging adjacent data of one kind and dropping empty data exactly if they say the same byte by byte |
| `HttpSplit.EntryAsserts` | base/http_parser.cc:1519-1521 | The invariant implies every assertion of the source on entry to a state, and the bounds of the tables it indexes |
| `HttpSplit.RunIsSafe` | base/http_parser.cc:1937-1938 | No assertion fires on any input from any state that keeps the invariant |
| `HttpSplit.InitIsSafe` | base/http_parser.cc:2153-2161 | In particular from http_parser_init on, for requests, responses and both |
| `HttpHeader.NameMeans` | base/http_parser.cc:1404-1555 | The header automaton ends where the lower-cased name says: at one of the five words, or nowhere |
| `HttpNames.TokensAreTchars` | base/http_parser.cc:146-185 | The bytes of a name are exactly the token characters of section 3.2.6 of RFC 7230, capitals included |
| `HttpNames.MeaningIs` | base/http_parser.cc:1404-1555 | A name means Connection, Content-Length, Transfer-Encoding or Upgrade exactly if it is such a word but for capitals, whatever the table makes of them |
| `HttpNames.ValuesSay` | base/http_parser.cc:1688-1722 | A value says chunked, keep-alive or close exactly if it is that word but for capitals, with nothing but spaces behind it |
| `HttpNames.AllFieldFlags` | base/http_parser.cc:1557-1777 | After any fields a flag is set exactly if one of them says so |
| `HttpNames.LengthsAfterAll` | base/http_parser.cc:1597-1605 | Of several lengths the last one counts, and without any there is none |
| `HttpHeader.NameGoes` | base/http_parser.cc:1372-1555 | A header name is read through and reported, and the automaton is where the name says |
| `HttpValue.MatchSays` | base/http_parser.cc:1688-1722 | The value automaton is in its final state exactly if the value so far is the word |
| `HttpMessage.ValueMeans` | base/http_parser.cc:1557-1777 | At the end of a value the flags are those that name and value say |
| `HttpMessage.HeaderGoes` | base/http_parser.cc:1372-1777 | A header line makes two runs of data callbacks and changes the fields as a reference function of name and value says |
| `HttpLines.LineBecomes` | base/http_parser.cc:1350-1776 | Every line where a header is awaited, ended by CRLF or LF: its name and value are told and said, or it is refused with the error and at the byte that a reading of it in plain terms gives |
| `HttpLines.LengthIsValue` | base/http_parser.cc:1660-1686 | The digits of a length below 2^64 - 1 are all taken, and come to its value |
| `HttpLines.OnlyLineFeed` | base/http_parser.cc:1742-1835 | Where a line or the headers have to end, every byte but a line feed is refused |
| `HttpMethod.MethodExactly` | base/http_parser.cc:935-1050 | A method is recognised from exactly one spelling, and no other text is one |
| `HttpMethod.HttpMethods` | base/http_parser.cc:1003-1050 | The methods of RFC 7231 and PATCH are recognised from their names |
| `HttpMethod.WebdavMethods` | base/http_parser.cc:1003-1050 | So are those of RFC 4918 |
| `HttpMethod.OtherMethods` | base/http_parser.cc:1003-1050 | So are the other ones of the table, but for M-SEARCH |
| `HttpMethod.SearchIsRefused` | base/http_parser.cc:1003-1050 | No method is recognised from M-SEARCH |
| `HttpMethod.MethodGoes` | base/http_parser.cc:935-1050 | The automaton reads the accepted spelling of every method to that method |
| `HttpRequestLine.LineIs` | base/http_parser.cc:935-1348 | Whatever is accepted up to the first line feed is a request line, and the fields are those that it gives |
| `HttpRequestLine.LineGoes` | base/http_parser.cc:935-1348 | Every request line is accepted, with any number of spaces, with or without a version; its target is told and its fields are set |
| `HttpRequestLine.RequestLineExactly` | base/http_parser.cc:935-1348 | A line of bytes is accepted for the first of a request exactly if it is a request line |
| `HttpChunked.SizeGoes` | base/http_parser.cc:1935-2000 | A chunk size below 2^64 - 1, in hexadecimal digits of either case, is read exactly |
| `HttpChunked.ChunkedBodyGoes` | base/http_parser.cc:1935-2060 | Any non-empty chunks, with their extensions, deliver their concatenation; then come the fields of the trailer and one message_complete |
| `HttpBody.LengthBodyGoes` | base/http_parser.cc:1887-1922 | A body of a known length delivers itself and one message_complete, with nothing left of the length |
| `HttpBody.HeadersDoneSettles` | base/http_parser.cc:1830-1885 | After the headers the parser goes on as the framing of the message says |
| `HttpRequest.TargetGoes` | base/http_parser.cc:435-603 | A request target is reported byte by byte, and the URL automaton is where the text says |
| `HttpTargets.TargetExactly` | base/http_parser.cc:435-603 | A target is accepted exactly if it is the text of parts that fit and go beyond a scheme |
| `HttpTargets.UrlCharacters` | base/http_parser.cc:375-404 | The character classes of the URL automata are those of RFC 2396, spelled out |
| `HttpRequest.HeadersGo` | base/http_parser.cc:1372-1828 | A list of headers is reported in order, and the fields are what all of them say together |
| `HttpRequest.RequestRead` | base/http_parser.cc:605-2098 | The head of a request is read back from its text: events, fields and what the rest of the input is taken for |
| `HttpChunked.ChunkedRequestRead` | base/http_parser.cc:1935-2060 | A whole request with a chunked body delivers target, headers, data and trailer, and leaves the flags that all fields say |
| `HttpChunked.FrameRefuses` | base/http_parser.cc:1935-2060 | Around the data of chunks every byte is refused that may not stand there, and with which error |
| `HttpRequest.LengthRequestRead` | base/http_parser.cc:1597-1605 | A Content-Length below 2^64 - 1 delivers exactly so many bytes as the body |
| `HttpPipeline.MessageRead` | base/http_parser.cc:605-2098 | A request with its content, as its fields give it, is told to the callbacks, and the parser is ready for another exactly if the connection is kept |
| `HttpPipeline.KeptAlive` | base/http_parser.cc:2125-2150 | From version and fields alone: the connection is kept exactly if HTTP/1.1 does not say close, or an earlier version says keep-alive |
| `HttpPipeline.Pipelined` | base/http_parser.cc:605-2098 | Any requests in a row, of which all but the last keep the connection, are told of in order, each with its content |
| `HttpPipeline.BlankLinesGo` | base/http_parser.cc:687-695 | Line ends in front of a request do not matter, nor do they behind one that closes the connection |
| `HttpPipeline.NothingAfterClose` | base/http_parser.cc:687-695 | What follows a request that does not keep the connection is refused at its first byte, but for line ends |
| `HttpPipeline.Upgrades` | base/http_parser.cc:1792-1842 | A request to upgrade, or CONNECT, ends the work of the parser right behind its head |
| `HttpPipeline.ExampleRead` | base/http_parser.cc:605-2098 | The callbacks and the end state for one request with capitals in names and values |
| `HttpResponse.ResponseRead` | base/http_parser.cc:741-933 | The head of a response is read back: version, code, reason, fields, and how the rest of the input is taken |
| `HttpResponse.StatusRefuses` | base/http_parser.cc:720-933 | In a status line every byte is refused that may not stand there |
| `HttpResponse.SeenFraming` | base/http_parser.cc:2100-2150 | What follows a response, and whether another one may, from its code, version and fields |
| `HttpResponse.ToTheEndGoes` | base/http_parser.cc:1924-1928 | A body without an end of its own is all that comes |
| `HttpValue.LengthDigit` | base/http_parser.cc:1660-1686 | The overflow test never objects to the digits of a length below 2^64 - 1 |
| `HttpUrl.ReadSound` | base/http_parser.cc:435-603 | What the URL automaton has read is made up of parts that fit, in their order, with nothing lost |
| `HttpUrl.ReadExactly` | base/http_parser.cc:435-603 | The automaton reads a text to the end exactly if it is put together from parts that fit, and these are unique |
| `HttpHost.ReadHostExactly` | base/http_parser.cc:2177-2252 | The same for the authority: user info, host or bracketed address, and port |
| `HttpUrlFields.TakenApartExactly` | base/http_parser.cc:2335-2411 | A URL is accepted by both passes exactly if its parts fit and there is a host where one is needed |
| `HttpUrlFields.InOrder` | base/http_parser.cc:2335-2411 | The fields are in bounds, disjoint and in the order schema, userinfo, host, port, path, query, fragment |
| `HttpUrlFields.Contents` | base/http_parser.cc:2254-2333 | The stretch of the text at a field's offset and length is the part it is named after |
| `HttpUrlParser.Url.ParseHost` | base/http_parser.cc:2254-2333 | It succeeds exactly if the automaton reads the whole authority to an end state, and then sets user info, host and port to its parts and leaves the other fields alone |
| `HttpUrlParser.Url.ParseUrl` | base/http_parser.cc:2335-2439 | On a zeroed structure it succeeds exactly for the accepted URLs and sets fields, field set and port to those of the URL |
| `HttpUrlParser.PortExactly` | base/http_parser.cc:2423-2436 | The port is the decimal value of its field exactly if no digits follow the URL in memory when the port comes last, or only zeros matter |
| `HttpUrlParser.StrayDigits` | base/http_parser.cc:2423-2436 | A URL whose field is 80 and whose port is 8012 |
| `Integers.String2Ll` | redis/read.c:183-262 | The loop decides and computes what the specification of a strict 64-bit integer says |
| `Integers.ReadsExactlyShown` | redis/read.c:183-262 | A text is accepted exactly if it is the text of an int64, and the value is that one |
| `Integers.SdsLl2Str` | redis/sds.c:483-516 | Digits written backwards and reversed in place are the numeral, the minimum included, with its terminator and within the buffer |
| `Integers.SdsUll2Str` | redis/sds.c:519-548 | The same for unsigned integers |
| `Integers.ReadBack` | redis/read.c:183-262 | Printing and strict reading are inverse for every int64 |
| `Resp.ReadItemMore` | redis/read.c:530-584 | A reply or an error found in a text is found in every longer text |
| `RespWire.WireRead` | redis/read.c:313-528 | A reply as it stands on the wire, both ways to say nothing included, is read with exactly its bytes consumed, or refused for its depth |
| `RespWire.ReadExactly` | redis/read.c:530-584 | Bytes are read as a reply, and so many of them, exactly if they are one on the wire that is not nested too deeply |
| `RespFlaws.RefusedExactly` | redis/read.c:313-584 | Bytes are refused, and with which error, exactly if whole items and then a broken one come first, at any depth |
| `RespWire.RoundTrip` | redis/read.c:313-528 | A serialised reply is read back with exactly its bytes consumed if no array is nested below level 7, and is refused with the depth error otherwise |
| `RespReader.SeekNewline` | redis/read.c:136-169 | The search finds the first CRLF, past lone carriage returns |
| `RespReader.Reader.MoveToNextTask` | redis/read.c:282-311 | The stack after a finished task stands for what the grammar still has to read |
| `RespReader.Reader.ProcessLineItem` | redis/read.c:313-363 | A step on a line keeps the meaning of stack and input: it consumes, fails as the grammar does, or waits with nothing changed |
| `RespReader.Reader.ProcessBulkItem` | redis/read.c:365-438 | The same for bulk strings, the null one included |
| `RespReader.Reader.ProcessMultiBulkItem` | redis/read.c:440-528 | The same for arrays: null, empty, opened on the stack, or too deep |
| `RespReader.Reader.Feed` | redis/read.c:617-651 | Bytes are appended to what is pending unless the reader has failed |
| `RespReader.Reader.GetReply` | redis/read.c:653-705 | One call gives exactly what the grammar makes of the pending bytes: a reply, nothing yet, or the error, which stays |
| `RespScript.PlayIsDrain` | redis/read.c:617-705 | However a text is fed and whenever replies are asked for, what has come and what is to come is one parse of the whole |
| `RespScript.NeverMore` | redis/read.c:617-705 | Replies given so far are a prefix of that, and an error comes only after all replies before it |
| `RespScript.OnlyTheBytesMatter` | redis/read.c:617-705 | Once asked often enough, only the bytes matter |
| `RespScript.StreamBack` | redis/read.c:653-705 | A stream of replies, however they are written, comes back whole, up to the first that is nested too deeply |
| `RespScript.Drive` | redis/read.c:617-705 | The reader itself, driven by a script, does what the script means |
| `RespWriter.CountDigits` | redis/hiredis.c:205-222 | The loop by fours counts the digits of the decimal numeral |
| `RespWriter.TotalLength` | redis/hiredis.c:585-602 | The length computed up front is that of the command |
| `RespWriter.FormatCommandArgv` | redis/hiredis.c:585-624 | The allocated buffer is filled exactly, with the command and its terminator |
| `RespWriter.FormatSdsCommandArgv` | redis/hiredis.c:529-573 | The other formatter gives the same bytes |
| `RespWriter.VFormatCommand` | redis/hiredis.c:229-471 | With %s, %b and %% the formatter writes the command of the cut-up format, or fails where the specification does |
| `RespWriter.CommandReadBack` | redis/hiredis.c:585-624 | The reader gives the arguments back and stops right behind the command |
| `RespWriter.BoundariesComeFromTheFormat` | redis/hiredis.c:251-306 | There is one argument for each word of the format, whatever is interpolated |
| `SdsQuote.SdsCatRepr` | redis/sds.c:973-1009 | The loop appends the quoted form |
| `SdsQuote.SdsSplitArgs` | redis/sds.c:1087-1242 | The loops split a line as the specification of quotes and escapes says, or refuse it |
| `SdsQuote.SplitJoined` | redis/sds.c:1073-1242 | Any list of byte strings, quoted and joined with spaces, is split into itself |
| `SdsLine.SplitExactly` | redis/sds.c:1087-1242 | A line is split exactly if it is made of arguments, bare, in double or in single quotes, with blanks between, and then into what they mean |
| `SdsQuote.ReprIsPrintable` | redis/sds.c:967-1009 | A quoted string has printable characters only |
| `DictChains.NextPower` | redis/dict.c:337-349 | The next table size is a power of two, at least 4, not smaller than asked and less than twice that |
| `DictChains.AndMask` | redis/dict.c:363 | Masking with a power of two less one is the remainder |
| `Dict.Dict.Find` | redis/dict.c:261-277 | An entry is found exactly if the map has the key, and it is the map's |
| `Dict.Dict.Expand` | redis/dict.c:92-140 | Relinking every entry into a new table keeps the map, the entries and their number |
| `Dict.Dict.KeyIndex` | redis/dict.c:354-373 | The slot of a new key, after growing if needed; -1 exactly for a key that is there |
| `Dict.Dict.Add` | redis/dict.c:143-163 | It adds to the map exactly if the key is new, and otherwise changes nothing |
| `Dict.Dict.Replace` | redis/dict.c:169-189 | The map has the key with the new value; it says whether the key was new |
| `Dict.Dict.Delete` | redis/dict.c:192-223 | The map loses exactly the key, and the chains lose exactly one entry |
| `DictIterator.Iterator.Next` | redis/dict.c:290-315 | It gives the entries that are pending, in order, and then null |
| `DictIterator.FlatOnce` | redis/dict.c:290-315 | The order of iteration has every entry of the table once |
| `DictIterator.DeleteGiven` | redis/dict.c:290-315 | Deleting the entry just given leaves what is pending as it is |
| `DictIterator.Sweep` | redis/dict.c:290-315 | A sweep that deletes some of what it is given visits all and keeps the rest |
| `CallbackLists.CallbackList.Push` | redis/async.c:259-281 | The linked list gets one more callback at its end |
| `CallbackLists.CallbackList.Shift` | redis/async.c:283-299 | It loses its first one, which is given back |
| `Async.AsyncContext.AsyncCommand` | redis/async.c:678-769 | A command is accepted, its callback queued and its text put behind what is to be written, exactly if the context is neither disconnecting nor being freed |
| `Async.AsyncContext.TearDown` | redis/async.c:313-358 | Every callback that is pending runs once, without a reply, and none is accepted meanwhile |
| `Async.AsyncContext.DisconnectNow` | redis/async.c:375-400 | The assertion of a clean disconnect holds, and the context ends |
| `Async.AsyncContext.AsyncDisconnect` | redis/async.c:406-412 | With nothing pending the context ends; otherwise it is disconnecting and all else stays |
| `Async.AsyncContext.AsyncFree` | redis/async.c:366-373 | The context ends, and what was pending has been told so |
| `Async.AsyncContext.ProcessCallbacks` | redis/async.c:479-567 | Replies go to the callbacks in order until none is complete; or the context ends, and it does so when it is disconnecting and nothing is pending; or the process stops at a reply that nobody asked for |
| `Async.AsyncContext.HandleWrite` | redis/async.c:624-651 | Only what has been written leaves the output buffer, from its front; on an error the context ends |
| `Async.AsyncContext.Conserved` | redis/async.c:479-567 | Callbacks run in order of acceptance, once each, the k-th with the k-th reply of the stream or none; in the end all have; and the commands accepted are what has been written and what is to be |
| `Async.Live` | redis/async.c:598-656 | Any run of commands, reads, writes, disconnects and frees keeps to that |
| `Pool.ConnPool.Get` | mysql/db_pool.cc:401-459 | A caller is lent the first free connection; with none free a new one is made as long as there may be more; the caller waits exactly if there may not |
| `Pool.ConnPool.GetAgain` | mysql/db_pool.cc:413-447 | With the lock again a waiting thread gets the first free connection, gives up if the pool is stopped or its time is over, and waits on otherwise |
| `Pool.ConnPool.Release` | mysql/db_pool.cc:461-479 | A connection goes back to the end of the list unless it is there, and one waiter is notified |
| `Pool.ConnPool.Init` | redis/cache_pool.cc:891-907 | The initial connections are made, in order, or it fails exactly if one cannot be |
| `Pool.NextKeeps` | redis/cache_pool.cc:909-989 | Every step of any thread keeps the invariant, in which notified threads, yet to run, cover the free connections while any thread sleeps |
| `Pool.Safety` | mysql/db_pool.cc:375-479 | Over every run: nothing is lent twice, free and lent are disjoint and add up, the size is bounded, and while a thread sleeps there are no more free connections than notified threads yet to run |
| `Pool.WaitsOnlyIfAllAreLent` | mysql/db_pool.cc:401-447 | After every run, a thread that asks begins to wait exactly if all connections that there may be are lent; otherwise it gets one that is not lent, and no more are made than needed |
| `Pool.WaitsOnIfAllAreLent` | mysql/db_pool.cc:413-447 | A thread that has been woken waits on exactly if all are lent and its time is not over |
| `Pool.NoneSleepsBeside` | mysql/db_pool.cc:440-479 | After every run with a thread still waiting, the free connections can be lent out at once, each to another notified thread, by those threads just going on |
| `Pool.StrayIsHarmlessIf` | mysql/db_pool.cc:461-479 | After every run, giving back a connection that the thread does not hold keeps the pool right exactly if it is free already |
| `JsonText.ValueToQuotedString` | jsoncpp/json_writer.cpp:90-150 | Both paths of the writer, with and without the fast test, give the quoted form of the C string |
| `JsonStrings.StringExactly` | jsoncpp/json_reader.cpp:390-400 | A text up to a quote is a string, and means what it does, exactly if it is made of plain characters, the eight short escapes, and escapes of four digits in either case |
| `JsonStrings.FourRead` | jsoncpp/json_reader.cpp:690-717 | Four hexadecimal digits, each in either case, give their number, and nothing else gives one |
| `JsonStrings.PiecesOfFit` | jsoncpp/json_writer.cpp:90-150 | The writer escapes a string into pieces that mean it |
| `JsonStrings.EscapesBack` | jsoncpp/json_reader.cpp:598-659 | Decoding undoes the writer's escapes, and the end of the string is found where it is |
| `JsonText.UTF8Back` | jsoncpp/json_tool.h:18-44 | Every code point's encoding is decoded to it, whatever follows |
| `JsonNumber.ValueToString` | jsoncpp/json_writer.cpp:32-43 | The text of a signed integer is its numeral, the minimum included |
| `JsonNumber.DecodeNumber` | jsoncpp/json_reader.cpp:504-550 | A number token gets the integer type and value that its digits say, and is left to the double decoder exactly if no 64-bit type holds it |
| `JsonNumber.ThresholdExact` | jsoncpp/json_reader.cpp:519-541 | The test before each digit gives up on integers only if the whole value is too large |
| `JsonNumber.DecodedSigned` | jsoncpp/json_reader.cpp:504-550 | Numerals of signed 64-bit integers come back as the normal form of the integer |
| `JsonNumber.DecodedUnsigned` | jsoncpp/json_reader.cpp:504-550 | So do those of unsigned ones |
| `Json.PutSorted` | jsoncpp/json_reader.cpp:402-455 | An object stays sorted and has one member for each name, the last one given |
| `JsonDocs.DocumentExactly` | jsoncpp/json_reader.cpp:145-216 | A text is accepted, and read as a value, exactly if it starts with a document of that value, with blanks between its tokens |
| `JsonDocs.LastCounts` | jsoncpp/json_reader.cpp:402-455 | The members of an object are sorted, and of those written with one name the last one counts |
| `JsonDocs.ValueRead` | jsoncpp/json_reader.cpp:145-216 | Any text with the tokens of a value, blanks anywhere between them, is read as its normal form |
| `JsonDocs.ExampleRead` | jsoncpp/json_reader.cpp:661-717 | The bytes of a file name that is written with an escape in small letters |
| `JsonDocs.RoundTrip` | jsoncpp/json_reader.cpp:104-143 | A value comes back exactly if it is in normal form: integers of the type of their range, no null bytes |
| `JsonReader.Reader.ReadToken` | jsoncpp/json_reader.cpp:235-304 | The tokeniser finds the specified token and ends behind it |
| `JsonReader.Reader.ReadValue` | jsoncpp/json_reader.cpp:145-216 | The reader with its position agrees with the grammar on success, failure and value |
| `JsonReader.DecodeString` | jsoncpp/json_reader.cpp:608-659 | The loop decodes a string as specified or refuses it |
| `JsonReader.ParseDocument` | jsoncpp/json_reader.cpp:104-143 | A document is accepted exactly if it parses, and gives the parsed value |
| `JsonWriter.FastWriter.Write` | jsoncpp/json_writer.cpp:166-219 | The document written is read back as the normal form of the value |
| `JsonWriter.FastRenders` | jsoncpp/json_writer.cpp:173-219 | The fast writer's text has the tokens of the value |
| `JsonWriter.FastRoundTrip` | jsoncpp/json_writer.cpp:166-219 | Writing and reading give the value back exactly if it is in normal form |
| `JsonStyled.StyledWriter.Write` | jsoncpp/json_writer.cpp:227-236 | The styled text has the tokens of the value, and is read back as the fast one is |
| `JsonStyled.StyledWriter.WriteValue` | jsoncpp/json_writer.cpp:238-288 | The text goes to the document, or as one more entry to the shared buffer, and the flags and the indentation are as before |
| `JsonStyled.StyledWriter.WriteLines` | jsoncpp/json_writer.cpp:290-322 | The shared buffer, empty or with one text for each element, is read before the recursion reuses it |
| `JsonStyled.StyledWriter.IsMultilineArray` | jsoncpp/json_writer.cpp:333-356 | The buffer is left empty or with exactly one text for each element; and not empty if the array goes on one line |
| `FileTables.DeleteKeeps` | api/api_dealfile.cc:259-321 | Lowering the count and dropping the reference keeps all counts right, and drops the file with its last reference |
| `FileApi.ApplyKeeps` | api/api_dealfile.cc:259-321 | An operation keeps counts and uniqueness exactly if uploads are of new files and deletions of rows that exist |
| `FileApi.RunKeeps` | api/api_deal_sharefile.cc:236-312 | So does every run of such operations |
| `FileApi.RowIffReferred` | api/api_dealfile.cc:295-321 | The row of a file is there exactly as long as somebody refers to it, with their number |
| `FileApi.Server.StoreFileinfo` | api/api_upload.cc:343-404 | Two inserts: both, the first only, or none, as the statements work; for a new file the counts stay right exactly if it is not the first only |
| `FileApi.Server.DealMd5` | api/api_md5.cc:61-144 | Each answer is given exactly when it is due: the user has the file already, it is new to the user and now his, it cannot be had, or the process ends at a count query that fails; both tables change or neither does, and the counts stay right |
| `FileApi.Server.SaveFile` | api/api_deal_sharefile.cc:236-312 | Nothing, the count only, or both change, and each answer is given exactly when it is due; the counts stay right exactly if it is not the insert that fails after the count has been raised |
| `FileApi.DeletedWell` | api/api_dealfile.cc:259-321 | Which statements may fail in a deletion for the counts to stay right, exactly |
| `FileApi.Server.DeleteFile` | api/api_dealfile.cc:259-321 | The tables are those that the failing statement leaves, each answer is given exactly when it is due, and the counts are right exactly in the cases of that condition |
| `Ranking.ForgetAgrees` | api/api_deal_sharefile.cc:178-203 | Removing a file from table and cache keeps them in agreement exactly if it was shared by the one who removes it, or by nobody |
| `Ranking.PvAgrees` | api/api_deal_sharefile.cc:67-120 | One more download keeps table and cache in agreement |
| `Ranking.ApplyAgrees` | api/api_dealfile.cc:53-250 | An operation keeps the agreement exactly if files are taken out by their sharers |
| `Ranking.RunAgrees` | api/api_deal_sharefile.cc:67-203 | So does every sequential run |
| `RankingHistory.FirstSharerOwns` | api/api_dealfile.cc:53-155 | After any run in which nobody takes the file out, its row is its first sharer's, with as many downloads as there have been since, and the cache says the same; without a share there is neither |
| `RankingHistory.CountsDownloads` | api/api_deal_sharefile.cc:67-120 | A file in the ranking gains one for each download, and nothing else about it changes |
| `RankingHistory.LastWordCounts` | api/api_dealfile.cc:97-106 | A row of a user is marked as shared exactly if the last operation with a say about it was a share |
| `RankingHistory.DownloadRestores` | api/api_deal_sharefile.cc:104-115 | A download of a file that the cache has lost puts it back with the number of the row |
| `RankingHistory.ShareRestoresZero` | api/api_dealfile.cc:81-88 | Sharing a file that the cache has lost puts it back with zero: right exactly if it has no downloads |
| `RankingHistory.CancelRemoves` | api/api_deal_sharefile.cc:153-203 | The row of that user and that file leaves the table, the file leaves the cache, and nothing else changes |
| `RankingHistory.DeleteRemoves` | api/api_dealfile.cc:185-259 | A deletion does the same where cache or mark say that the file is shared, and takes the user's row away |
| `Ranking.Server.InitializePvCache` | api/api_sharefiles.cc:82-128 | The cache agrees with the table once it has been filled, if no two rows have the same id |
| `Ranking.CopiedAgrees` | api/api_sharefiles.cc:113-127 | Rows copied in any order leave the cache in agreement |
| `Ranking.Server.ShareFile` | api/api_dealfile.cc:53-155 | Table and cache change as the operation says; it is refused exactly if cache or table know the file |
| `Ranking.Server.PvFile` | api/api_deal_sharefile.cc:67-120 | Table and cache change as the operation says; it fails exactly if the table does not know the file |
| `Ranking.NotTheSharer` | api/api_deal_sharefile.cc:176-203 | A file that one user has shared and another takes out: the table keeps it and the cache loses it |
| `Ranking.Server.CancelShareFile` | api/api_deal_sharefile.cc:153-203 | Tables and cache change as the operation says, whoever has shared the file |
| `Ranking.Server.DeleteFile` | api/api_dealfile.cc:185-259 | Tables and cache change as the operation says; the shared_status of the user's own row decides when the cache does not know the file |
| `PvRuns.StepKeeps` | api/api_deal_sharefile.cc:67-120 | Every step of one of many downloads keeps the row lock's invariant and the distance between score, table and what is owed |
| `PvRuns.RunKeeps` | api/api_deal_sharefile.cc:67-120 | So does every interleaving, for a file in the ranking |
| `PvRuns.EachCounted` | api/api_deal_sharefile.cc:67-103 | The table counts every committed download once |
| `PvRuns.QuietAgain` | api/api_deal_sharefile.cc:67-120 | When all downloads are over, score and table agree exactly if they did at the start |
| `PvRuns.Alone` | api/api_deal_sharefile.cc:104-115 | One download alone keeps a right score right, and puts a file back that the cache has lost |
| `PvRuns.MissingFileRace` | api/api_deal_sharefile.cc:104-115 | Two downloads of a file that the cache has lost, in an order that leaves a score one too low |
| `PvRuns.AlwaysIff` | api/api_deal_sharefile.cc:67-120 | From a quiet start, every interleaving of every number of downloads ends with the score of the table exactly if the file is in the sorted set with the row's value |
| `Multipart.Search` | api/api_upload.cc:123 | The first place of a pattern, or the end |
| `Multipart.Strip` | api/api_upload.cc:103-112 | The two loops compute what the specification of stripping says, or an impossible range |
| `Multipart.StripFramed` | api/api_upload.cc:103-112 | Line ends around a text do not matter; the range is impossible exactly if there is nothing but line ends |
| `Multipart.DecodeMsg` | api/api_upload.cc:115-152 | The loop over iterators decodes as the specification on suffixes says |
| `MultipartLayout.NextDelimiter` | api/api_upload.cc:128 | After a part the delimiter found is the next one, also if the boundary is made of dashes only |
| `MultipartLayout.PartRead` | api/api_upload.cc:131-143 | A part in the standard layout gives its name and its value without line ends at the ends |
| `MultipartLayout.LayoutDecodes` | api/api_upload.cc:115-152 | What becomes of a body in the standard layout, whatever its pairs are |
| `MultipartLayout.RoundTrip` | api/api_upload.cc:115-152 | Six pairs are recovered exactly if no value is empty or has a line end at its start or end |
| `MultipartLayout.UsualEnd` | api/api_upload.cc:128-129 | The usual closing line ends the loop for every boundary |
| `MultipartLayout.EmptyIsLost` | api/api_upload.cc:103-112 | An upload with an empty value that is not recovered, and the same upload recovered with a value in its place |

## Left out

- HTTP pausing, callbacks that return an error, and the response writers of the server.
- HTTP header values that go on in a further line (section 3.2.4 of RFC 7230 calls this obsolete): covered by the results on all inputs, but not read back from their text.
- HTTP numbers from 2^64 - 1 on: the overflow tests at base/http_parser.cc:1678 and 1983 do not find every overflow. `HttpLines` follows them in lengths; bodies of such sizes are not read back.
- Chunk sizes with bytes from 0x80 on: the table `unhex` is half filled, and they read as zero, as in the code; such sizes are not read back from their text.
- HttpUrlParser.Url.ParseUrl: URLs from 64 KiB on, whose offsets do not fit into 16 bits, are excluded by its precondition.
- RESP buffers of 2^31 bytes or more (`seekNewline` counts in an int), running out of memory, and giving back an idle buffer (`maxbuf`).
- RESP replies are values that are attached to their parents when they are finished, not trees of objects filled in place.
- RespWriter.VFormatCommand: conversions other than %s, %b and %% fail in the model.
- Sizes beyond the range of int in the command writers.
- `isprint` and `isspace` are those of the "C" locale; signed overflow is two's complement.
- redis/sds.c beyond quoting, splitting and integers (growing, ranges, joining): easy members only.
- Dictionary tables from 2^30 slots on, running out of memory, and the copying and destroying of keys and values.
- Async publish/subscribe and MONITOR, the connect and disconnect callbacks calling back into the context, and running out of memory.
- Async disconnecting or freeing from inside a callback is a flag that is raised, and acted on when the callback is over, as in the code.
- Async.AsyncContext.ProcessCallbacks: a reply that nobody asked for stops the process at an assertion, as in the code; that is an outcome of the model.
- Pool connections that fail after they have been made, and the destructors but for waking the waiters.
- JSON doubles, comments, error messages and error recovery, `StyledStreamWriter`, and dropped null placeholders.
- JSON sizes are unbounded; `decodeNumber` has the types of 64-bit integers.
- The counters FILE_PUBLIC_COUNT and FILE_USER_COUNT, FastDFS, and tokens.
- FileApi.Server.DealMd5: starting, committing or rolling back a transaction works; the code does not look whether it has.
- FileApi.Server.DeleteFile: the query for the file's id in the storage works.
- Ranking.Server.PvFile: statements and commands work in `Ranking` (the status query of base/tc_common.cc crashes when it fails); failed transactions are steps of `PvRuns`.
- The listing of the ranking, short links and picture sharing.
- How the delimiter is taken from the request's Content-Type: that code is not part of this model.
- Login, registration, configuration, logging, sockets and the event loop.

# Verified model of the HTTP and JSON text layers

This project models, in Dafny, the text-processing core of a media server:

- the incremental HTTP/1.x request parser (`http_parser.c`) and the `CHttpParser` object that drives it;
- the JSON printer and parser (`BuiltStyledStreamWriter`, `OurReader`) with string quoting, UTF-8 and
  `\u` conversion, and integer text;
- the two URL splitters (`http_parser_parse_url` and `UrlParser`);
- the ordering of `Json::Value`.

`dafny verify dfyconfig.toml` checks everything.

## How it is organised

**HTTP.** A byte is a `char`, a buffer a `string`. `HttpSwitch` has one pass of the parser's `switch` on one
byte; `HttpRun` turns it into a machine that carries the parser fields, the text under the live callback mark and
the callbacks made. `HttpExecute` is the parser as the code runs it: a class whose fields are updated in place,
marks as positions, loops that scan header bytes and skip body bytes in one go. Its `Execute` is proved to do what the
byte-at-a-time machine does, so everything proved about the machine (`HttpInvariant`, `HttpMarks`,
`HttpSplit`, `HttpIndependence`, `HttpNames`, `HttpMethods`, `HttpTransfer`, `HttpRequests`, `HttpChunked`, `HttpLeniency`)
holds of the code. `HttpConnection` says which options of a Connection value count; from them, the Upgrade headers, the method
and the version, `HttpRequests` and `HttpChunked` say what becomes of the connection after a message. `HttpFeed` feeds one such
object with the fragments of a connection. `HttpWrapper` is `CHttpParser`.

The model is the strict parser for requests, with callbacks that return 0 and do not touch the parser. Callbacks are
recorded as events. Data events of one kind that follow each other are compared after joining them where a theorem is
about different ways to cut the input (`HttpSplit.Merge`). Widths are explicit: the 5-bit index (`Inc`), 64-bit lengths
(`Wrap64`); buffers are short enough for the 32-bit `nread` not to wrap (`MAX_BUFFER`).

**URLs.** `UrlGrammar` has the grammar that the two character functions of `http_parser_parse_url` and
`http_parse_host` come to; `UrlFields` is the code, proved to accept exactly the texts of the grammar and to report
the fields where their pieces are. `UrlText` is `UrlParser`.

**JSON.** `JsonValues` has values and their order, `JsonNumbers` integers as text, `JsonUnicode` and `JsonQuoting`
strings, and `JsonSpelling` how a string may be spelled and which spelling is written. `JsonTokens` says for every position of a document which token is read there, and `JsonParse` what the reader
makes of a document: a value, a failure, or an exception. `JsonReader` is the reader, proved to come to just that on
every document, with its stack restored and errors exactly on failure. `JsonLayout` describes JSON text as a tree that
carries its tokens, white space and comments, with the text of the tree and the value it means; `JsonSteps`, `JsonTrees` and
`JsonAccepted` prove that the documents accepted are the texts of such trees, and which of them take liberties; `JsonFeatures`
has the features that add to the syntax. `JsonWriter` is the writer, whose output is a function of value and settings, and a
layout of the value for all settings; `JsonIndent` says what that layout looks like. `JsonRoundTrip` puts the two together. The
reader's stack holds the values themselves where the code holds pointers into the parent; popping stores the value back.

## Results about the code that a reader may not expect

- A transfer-encoding bit is set by every header name that *begins* with `transfer-encoding`
  (`HttpNames.NameTracked`); the header state, unlike the bit, is reset by further characters (`HttpNames.NameClassified`).
- The loop that skips an ordinary header value looks at no more than 80 KiB and then passes over one byte unexamined.
  The budget is used up at that point, so a call that succeeds is never affected (`HttpExecute.HttpParser.SkipGeneral`,
  `HttpScan.ScanExhausted`). A call that fails may report another error than the byte-at-a-time reading, but only where
  that reading runs out of header budget (`HttpExecute.HttpParser.Agrees`).
- Data under a mark is not delivered when a call ends in an error, so what an error leaves undelivered depends on the cut.
- The `chunked` coding is only recorded when it is the last one; the converse fails (after `chunked,` the matcher gives up
  on the rest), and is not claimed.
- In a Connection value, a beginning of `keep-alive`, `close` or `upgrade` that is not all of it swallows the comma after it, so
  `up, close` does not ask for closing. A later element that begins with a tab or an underscore ends the list; the first element
  may begin with anything (`HttpConnection.Options`).
- A version whose minor number is 0 counts as old whatever the major number, and a request line without a version counts as
  HTTP/0.9, so both are kept open only if keeping is asked for (`HttpRequests.KeepsAlive`). Trailers count for that too, but not
  for leaving HTTP (`HttpChunked.Decodes`). After CONNECT no body is read, whatever the Content-Length (`HttpRequests.RoundTrip`).
- A value that goes on on the next line is delivered piece by piece, and `CHttpParser` keeps only the last piece
  (`HttpLeniency.ReadsContinuation`, `HttpWrapper.ContinuationReplaces`).
- A string in single quotes is taken to end at the first double quote inside, and a single quote in it cannot be escaped
  (`JsonFeatures.SingleQuoted`).
- The reader takes any number for the second half of a surrogate pair (`JsonSpelling.Means`).
- A string that is not UTF-8 comes back repaired by default; code points beyond U+10FFFF keep 20 bits
  (`JsonUnicode.Fixed`).
- A lone minus sign is read as the integer 0 (`JsonNumbers.IntegerToken`); fractions and exponents may lack their digits
  (`JsonLayout.IsNumber`).
- The reader takes liberties that its features do not name. After a comment that follows a member, any token at all passes
  for the comma: it accepts `{"":1/**/7}` whatever the features (`JsonAccepted.CommentForComma`). A comma after the last
  member is accepted if that member's name is empty. Comments before names and after members and items are skipped even
  where they are not allowed. The grammar (`JsonLayout.Proper`) has all of these, so it is exact; a tree without them is
  `JsonLayout.Regular`. A document accepted is the text of a regular tree if and only if, as it is read, every comment after
  a member is followed by a comma or a brace, no brace comes after a comma without the feature for it, and no comment is
  skipped that is not allowed (`JsonParse.DocumentKept`, `JsonAccepted.AcceptedExactly`).
- A NUL character counts as the end of the document, and a comment that the end of the document cuts off counts if its
  last character is a slash (`JsonTokens.CommentScan`, `JsonAccepted.Over`).
- After CONNECT, a URL may have an empty user information with its at-sign, and a question mark and hashes at the end; they
  are in no field (`UrlGrammar.Legal`).
- `CHttpParser` replaces what an earlier callback of the same kind stored, and an empty body makes no callback, so the body
  of an earlier request stays (`HttpWrapper.RequestCalled`).

## Model

| member | source | states |
|---|---|---|
| HttpSwitch.AddDecimal | PlayerServer/http_parser.c:1546-1568 | a decimal digit is either refused or added exactly: no wrap-around, and never the value that means "absent" |
| HttpSwitch.AddHex | PlayerServer/http_parser.c:2022-2039 | the same for a hexadecimal digit of a chunk size |
| HttpSwitch.AgainDescends | PlayerServer/http_parser.c:66-67 | every jump back to the switch goes to a state of smaller rank, so the jumps on one byte end |
| HttpRun.RunConcat | PlayerServer/http_parser.c:710-716 | reading `a + b` is reading `a`, and then `b` unless it stopped |
| HttpInvariant.SwitchKeepsInv | PlayerServer/http_parser.c:717-2115 | every pass of the switch, on any byte, keeps the invariant that implies the assertions: remaining length neither 0 nor absent in bodies, chunk flag in chunk states, no unresolved header state in values, index within its literal |
| HttpMarks.SwitchOrderly | PlayerServer/http_parser.c:104-141 | callbacks and marks are timely: a failing pass touches no mark, no callback comes between the bytes of one datum, and the chunk header starts with the budget reset |
| HttpMarks.RunKeepsInv | PlayerServer/http_parser.c:2128-2132 | on every input, valid or not, the invariant holds between any two bytes, and at most one mark is live, of the kind the state says |
| HttpExecute.HttpParser.Pass | PlayerServer/http_parser.c:717-2115 | one pass on the fields in place is the switch of the machine, and the assertions in the chunk and body states hold |
| HttpExecute.HttpParser.PerformActs | PlayerServer/http_parser.c:104-141 | marks kept as positions deliver the same bytes as the text under the machine's mark |
| HttpExecute.HttpParser.ScanField | PlayerServer/http_parser.c:1254-1389 | the loop over a field name does what reading its bytes one at a time does, up to the header budget |
| HttpExecute.HttpParser.SkipGeneral | PlayerServer/http_parser.c:1509-1528 | the skip over an ordinary value stops at a line end or a byte that is not allowed, or has used up the budget |
| HttpExecute.HttpParser.ScanValue | PlayerServer/http_parser.c:1480-1704 | the loop over a header value does what reading its bytes one at a time does, up to the header budget |
| HttpExecute.HttpParser.TakeBody | PlayerServer/http_parser.c:1937-1971 | taking a slice of a body at once does what reading its bytes one at a time does |
| HttpExecute.HttpParser.Reexecute | PlayerServer/http_parser.c:716-717 | repeating the switch on a byte ends, in the configuration the machine comes to |
| HttpExecute.HttpParser.Execute | PlayerServer/http_parser.c:642-2147 | a call that succeeds leaves exactly the fields, callbacks and count of the byte-at-a-time reading; one that fails fails in the same way unless the header budget ran out; the count is within the buffer; a parser in error does nothing |
| HttpSplit.Cut | PlayerServer/http_parser.c:685-708 | one call on `a + b` is a call on `a` and one on `b`, up to joining callbacks |
| HttpSplit.AnySplit | PlayerServer/http_parser.c:685-708 | the same for any cutting of the input into non-empty buffers |
| HttpSplit.ConsumesAll | PlayerServer/http_parser.c:2140-2147 | a call without error that does not leave HTTP reports all its bytes |
| HttpFeed.ExitShows | PlayerServer/http_parser.c:1875-1987 | a call has left HTTP if and only if the parser is between messages with `upgrade` set |
| HttpFeed.Feed | PlayerServer/http_parser.c:685-708 | one object fed with any fragments comes to what one call on all of them together comes to, up to joining callbacks; an error is the same unless the header budget ran out |
| HttpIndependence.SwitchCanon | PlayerServer/http_parser.c:717-2115 | no pass depends on the fields that are stale in its state |
| HttpIndependence.FreshStart | PlayerServer/http_parser.c:925-967 | after a complete message the parser treats any input as a fresh one does, header budget aside |
| HttpIndependence.Pipelined | PlayerServer/http_parser.c:1980-1987 | pipelined requests make the callbacks of their separate parses, one after the other |
| HttpNames.NameClassified | PlayerServer/http_parser.c:1218-1389 | when the colon comes, the header state is that of one of the known names if and only if the whole name, letter case aside, is that name |
| HttpNames.NameTracked | PlayerServer/http_parser.c:1254-1389 | what the matcher's state and index say about the name read so far, for every name, with the index within the literal and its 5 bits; and exactly when the transfer-encoding bit is set |
| HttpMethods.SwitchKeepsPrefix | PlayerServer/http_parser.c:984-1012 | moving to another method keeps the prefix already read |
| HttpMethods.NameSpelled | PlayerServer/http_parser.c:969-1020 | whatever has been accepted as the beginning of a method spells the method held |
| HttpMethods.MethodRecognised | PlayerServer/http_parser.c:925-1020 | a word and a space are accepted if and only if the word is in the method table, and then that method is recorded |
| HttpTransfer.FramingUnambiguous | PlayerServer/http_parser.c:1804-1815 | after any input in any pieces: a body is framed in one way only, and no completed request had a Transfer-Encoding without the chunk flag, nor with a Content-Length in its header section |
| HttpTransfer.BodyConserved | PlayerServer/http_parser.c:1937-1971 | bytes delivered and bytes remaining add up to the declared length |
| HttpTransfer.ListByte | PlayerServer/http_parser.c:1577-1610 | what the coding matcher knows about the value read so far, kept by every byte |
| HttpTransfer.ChunkedIsLast | PlayerServer/http_parser.c:1421-1432 | the chunk flag is only set by a line whose last comma-separated element is `chunked`, blanks and letter case aside: for every unfolded line, with or without blanks after the colon, ended by CR LF or a bare LF |
| HttpHeaders.LengthByte | PlayerServer/http_parser.c:1540-1568 | a further digit of Content-Length is accepted exactly up to a fixed bound, and then counted exactly |
| HttpHeaders.ReadsLength | PlayerServer/http_parser.c:1434-1448 | after the digits of a Content-Length value the remaining length is their decimal value |
| HttpConnection.ConnectionBits | PlayerServer/http_parser.c:1612-1704 | a Connection value sets exactly the bits of the options in it that count, letter case and blanks after them aside: one equivalence for each of `keep-alive`, `close` and `upgrade`, for every value |
| HttpConnection.OneOption | PlayerServer/http_parser.c:1453-1468 | a value without commas is one option |
| HttpHeaders.ReadsHeader | PlayerServer/http_parser.c:1204-1791 | an ordinary header line, Connection and Upgrade lines included, delivers its name and its value, sets exactly the bits that the line asks for, and changes nothing else |
| HttpHeaders.ValueBits | PlayerServer/http_parser.c:1419-1476 | once the value is over, the bits are those of its options if the name is that of a Connection header, the upgrade bit if it is Upgrade, and none otherwise |
| HttpHeaders.ReadsCodingHeader | PlayerServer/http_parser.c:1595-1603 | a Transfer-Encoding line with `chunked` sets the chunk flag |
| HttpTargets.TargetIs | PlayerServer/http_parser.c:1052-1093 | a text is a request target exactly if it is that of pieces in the URL grammar, with an authority or a path |
| HttpTargets.OriginTarget | PlayerServer/http_parser.c:1052-1093 | a slash and any visible ASCII is one |
| HttpTargets.ReadsUrl | PlayerServer/http_parser.c:1022-1093 | every beginning of a URL in the grammar, after CONNECT one of an authority, is read to its end and under the mark |
| HttpTargets.ReadsProtocol | PlayerServer/http_parser.c:1063-1202 | after a target, any version `HTTP/d.d` or none gives the URL callback and that version, 0.9 for none |
| HttpLines.SettleRun | PlayerServer/http_parser.c:1717-1791 | when the next line does not continue the value, the line is over, and what was noted about it is recorded |
| HttpRequests.SectionMeans | PlayerServer/http_parser.c:1816-1826 | what the fields after the headers say: HTTP will be left if and only if the method is CONNECT, or an Upgrade header has a value and a Connection header asks for `upgrade`; another request may follow if and only if, from version 1.1 on, no header asks for `close`, and before, one asks for `keep-alive` |
| HttpRequests.ReadsHead | PlayerServer/http_parser.c:1793-1932 | a printed request line and header section are read up to the body, with all their callbacks; if there is no body the message is complete |
| HttpRequests.RoundTrip | PlayerServer/http_parser.c:925-1971 | printing any legal request, of any method, version and headers, and parsing the text makes the callbacks of that request and consumes it all, after CONNECT up to the body; the parser is then at the start of a message or closed, and has left HTTP or not, as method, version and headers say |
| HttpRequests.SecondLength | PlayerServer/http_parser.c:1434-1448 | after any header section with a Content-Length, a further Content-Length line is refused, whatever comes after it |
| HttpChunked.SizeByte | PlayerServer/http_parser.c:2005-2040 | a further digit of a chunk size is accepted exactly up to a fixed bound, and then counted exactly |
| HttpChunked.ReadsChunk | PlayerServer/http_parser.c:1989-2109 | a chunk with any spelling of its size and any extension delivers its bytes |
| HttpChunked.Decodes | PlayerServer/http_parser.c:1989-2109 | for any chunked request but CONNECT: all consumed, the bytes delivered are those of the chunks in order, the message is completed once, after the trailers, and the connection is kept, closed or left as version, headers and trailers say |
| HttpLeniency.BareLineFeed | PlayerServer/http_parser.c:1480-1511 | wherever the request line, a header line or the header section may end, a line feed alone is as good as a carriage return and a line feed, whatever follows: the same outcome and callbacks, one byte less, header budget aside |
| HttpLeniency.ReadsContinuation | PlayerServer/http_parser.c:1717-1730 | a line that begins with white space is delivered as one more value |
| HttpLeniency.SkipsLineEnds | PlayerServer/http_parser.c:925-929 | carriage returns and line feeds before a request are skipped |
| HttpLeniency.Closed | PlayerServer/http_parser.c:719-729 | a connection that is over takes nothing but carriage returns and line feeds; the first other byte is an error, and nothing is delivered |
| HttpWrapper.LastWins | PlayerServer/CHttpParser.cpp:107-110 | the header map holds the last value of each name, and keeps older entries of other names |
| HttpWrapper.ContinuationReplaces | PlayerServer/CHttpParser.cpp:98-110 | of a value delivered in two pieces the object keeps the second |
| HttpWrapper.RequestCalled | PlayerServer/CHttpParser.cpp:87-124 | what the object holds after the callbacks of a request |
| HttpWrapper.CHttpParser.Parse | PlayerServer/CHttpParser.cpp:45-53 | the callbacks are applied in order; without a completed message the result is 0 and the parser is unusable; a printed request gives back its method, URL, last-wins headers and body, the number of bytes it took, and what becomes of the connection |
| HttpWrapper.CHttpParser.Callback | PlayerServer/CHttpParser.cpp:87-124 | the effect of one callback on the stored fields |
| HttpWrapper.CHttpParser.constructor | PlayerServer/CHttpParser.cpp:3-17 | a fresh object around an initialised request parser |
| UrlGrammar.PutFits | PlayerServer/http_parser.c:494-640 | a byte that the character function goes on with makes the text read so far a longer beginning of a URL in the grammar, and the state is that of its last piece |
| UrlGrammar.FitsRead | PlayerServer/http_parser.c:494-640 | every beginning of a URL in the grammar is read to its end, and divided into its pieces |
| UrlGrammar.HostPutFits | PlayerServer/http_parser.c:2246-2324 | the same for the authority: user information, host or bracketed address with zone, port |
| UrlGrammar.HostFitsRead | PlayerServer/http_parser.c:2246-2324 | every beginning of an authority in the grammar is read to its end, and divided into its pieces |
| UrlGrammar.SplitExactly | PlayerServer/http_parser.c:2415-2536 | a text is accepted if and only if it is that of legal parts, and these are unique |
| UrlFields.Divide | PlayerServer/http_parser.c:2420-2487 | the first loop succeeds exactly on texts in the grammar, with the fields where the pieces are, the authority standing for the host |
| UrlFields.ParseHost | PlayerServer/http_parser.c:2326-2408 | an authority is refused exactly if it is not complete in the grammar; otherwise user information, host and port are where its pieces are, and no other field has changed |
| UrlFields.PortValue | PlayerServer/http_parser.c:2510-2533 | the port is the value of its digits, and is refused if and only if that exceeds 65535 |
| UrlFields.ParseUrl | PlayerServer/http_parser.c:2415-2536 | 0 if and only if the text is that of legal parts; then every field that has a piece is set to its place and length, no other is set, and the port is its value |
| UrlFields.Partitioned | PlayerServer/http_parser.c:2415-2536 | the fields of an accepted URL are within the buffer, not empty, in order and so disjoint; all other bytes are delimiters; a schema comes with a host; CONNECT has host and port only |
| UrlText.PortIsNumber | PlayerServer/CHttpParser.cpp:149-156 | the port of a printed number is the number, and of digits their value |
| UrlText.LastPairWins | PlayerServer/CHttpParser.cpp:165-184 | the map holds the last value of each key, older entries of other keys, and nothing else |
| UrlText.SplitsPrinted | PlayerServer/CHttpParser.cpp:131-185 | splitting the text printed from any legal parts gives those parts |
| UrlText.AcceptedIsPrinted | PlayerServer/CHttpParser.cpp:131-185 | every text that is accepted is the text of some legal parts |
| UrlText.AcceptedExactly | PlayerServer/CHttpParser.cpp:131-185 | a text is accepted if and only if it is printed from legal parts, and then the result is those parts |
| UrlText.NoProtocol | PlayerServer/CHttpParser.cpp:134-137 | the code is -1 if and only if the text has no `://`, and then nothing is changed |
| UrlText.DefectCodes | PlayerServer/CHttpParser.cpp:138-148 | with one, the code is -2 if and only if nothing follows, and -3 if and only if a slash follows at once; only the protocol is kept |
| UrlText.QueryDefect | PlayerServer/CHttpParser.cpp:165-184 | where the first piece of the query without an equals sign is the last one the code is -4, and -5 where it is an earlier one; everything before it is kept |
| UrlText.UrlParser.Parse | PlayerServer/CHttpParser.cpp:131-185 | the object's fields and the result code are those of the splitting, errors included |
| UrlText.UrlParser.ParsePairs | PlayerServer/CHttpParser.cpp:165-184 | the loop enters the pairs in order, up to a pair without `=` |
| UrlText.UrlParser.SetUrl | PlayerServer/CHttpParser.cpp:193-199 | a new URL resets everything but the path |
| JsonValues.TextTotal | PlayerServer/jsoncpp/json_value.cpp:295-310 | the order of keys and strings is total and strict |
| JsonValues.TextTransitive | PlayerServer/jsoncpp/json_value.cpp:295-310 | and transitive |
| JsonValues.LessTotal | PlayerServer/jsoncpp/json_value.cpp:490-537 | of two trees without doubles exactly one is less, or they are equal |
| JsonValues.LessTransitive | PlayerServer/jsoncpp/json_value.cpp:490-537 | the order of trees is transitive |
| JsonValues.LessIs | PlayerServer/jsoncpp/json_value.cpp:490-537 | which order it is: kinds as they are declared; integers by value, false before true; text by the first byte that differs, or as a proper prefix; arrays and objects by size, then by the first item or member that differs, members by key and then by value |
| JsonValues.EqualIs | PlayerServer/jsoncpp/json_value.cpp:546-586 | `==` on trees without doubles is structural equality |
| JsonValues.CompareDecides | PlayerServer/jsoncpp/json_value.cpp:482-488 | `compare` is 0 exactly on equal values and otherwise says which is less |
| JsonValues.PutSorted | PlayerServer/jsoncpp/json_value.cpp:1056-1072 | storing under a key keeps the members in order |
| JsonValues.PutGet | PlayerServer/jsoncpp/json_value.cpp:1056-1072 | what was stored is found under its key, and everything else where it was |
| JsonNumbers.UintToString | PlayerServer/jsoncpp/json_tool.h:81-87 | the digits are written before the given place, and nothing else in the buffer changes |
| JsonNumbers.IntToString | PlayerServer/jsoncpp/json_writer.cpp:94-108 | the text of every signed 64-bit integer, without running under the buffer |
| JsonNumbers.UIntToString | PlayerServer/jsoncpp/json_writer.cpp:110-116 | the text of every unsigned 64-bit integer |
| JsonNumbers.DecodeInteger | PlayerServer/jsoncpp/json_reader.cpp:1556-1634 | a token is an integer if and only if it is digits with an optional minus sign and its value is within range, and then it is that value |
| JsonNumbers.IntegerRoundTrip | PlayerServer/jsoncpp/json_reader.cpp:1556-1634 | reading undoes writing on every 64-bit integer |
| JsonUnicode.Utf8RoundTrip | PlayerServer/jsoncpp/json_tool.h:39-65 | the writer's decoding inverts the reader's encoding on every Unicode scalar value |
| JsonUnicode.HexRoundTrip | PlayerServer/jsoncpp/json_writer.cpp:254-263 | four hexadecimal digits give the number back |
| JsonUnicode.PairRoundTrip | PlayerServer/jsoncpp/json_reader.cpp:1722-1745 | a surrogate pair gives the code point back |
| JsonQuoting.PlainQuoted | PlayerServer/jsoncpp/json_writer.cpp:178-184 | text without special characters is its own quotation, so the fast path is right |
| JsonQuoting.ValueToQuotedString | PlayerServer/jsoncpp/json_writer.cpp:273-348 | the loop and the fast path both give the quotation |
| JsonQuoting.QuotedEscaped | PlayerServer/jsoncpp/json_reader.cpp:1416-1426 | no quote inside a quotation can end the token |
| JsonQuoting.RawRoundTrip | PlayerServer/jsoncpp/json_writer.cpp:318-324 | keeping UTF-8, every string of bytes comes back as it was |
| JsonQuoting.StringRoundTrip | PlayerServer/jsoncpp/json_reader.cpp:1669-1720 | by default a string comes back repaired: the same if and only if it is UTF-8, otherwise UTF-8 that then stays the same |
| JsonSpelling.EncodesExactly | PlayerServer/jsoncpp/json_tool.h:39-65 | a code point is encoded as the bytes that UTF-8 has for it (section 3 of RFC 3629), and as no others |
| JsonSpelling.SpelledExactly | PlayerServer/jsoncpp/json_reader.cpp:1669-1771 | a text is decoded as a string if and only if it spells it: characters for themselves, the eight short escapes, `\u` with digits of either case, or two such escapes (section 7 of RFC 8259) |
| JsonSpelling.BytesQuoted | PlayerServer/jsoncpp/json_writer.cpp:284-325 | keeping UTF-8, every byte is written by its short escape if it has one, by number if it is a control character, otherwise as itself |
| JsonSpelling.PointsQuoted | PlayerServer/jsoncpp/json_writer.cpp:284-346 | by default, code points beyond ASCII are written by number, in lower case, beyond U+FFFF as a surrogate pair; the rest as above |
| JsonParse.DocumentBuilt | PlayerServer/jsoncpp/json_reader.cpp:1004-1544 | every document that is accepted gives a value with its members in order, integers in their normal type, keys within their limit, no deeper than the stack limit |
| JsonSteps.NumberStands | PlayerServer/jsoncpp/json_reader.cpp:1390-1415 | where a number ends depends on nothing but its text, if what follows can come after a value |
| JsonSteps.NumberScanned | PlayerServer/jsoncpp/json_reader.cpp:1390-1415 | the scan takes all of a text exactly if it is a sign or a digit, digits, a point with digits, and an exponent with digits, any of the digits optional |
| JsonSteps.NumberLongest | PlayerServer/jsoncpp/json_reader.cpp:1390-1415 | the scan ends at the end of the longest such text that stands there |
| JsonSteps.QuoteFound | PlayerServer/jsoncpp/json_reader.cpp:1416-1426 | the quote after a text in which all quotes are escaped ends the string |
| JsonSteps.GapToken | PlayerServer/jsoncpp/json_reader.cpp:1142-1150 | after white space and comments comes the token that stands there; a comment is skipped exactly if there is one |
| JsonSteps.GapSound | PlayerServer/jsoncpp/json_reader.cpp:1294-1388 | what is skipped before a token is white space and whole comments |
| JsonSteps.AnyTokenLex | PlayerServer/jsoncpp/json_reader.cpp:1487-1498 | every text that passes for a comma, malformed tokens included, is read to its end as one token |
| JsonTrees.ParsesValue | PlayerServer/jsoncpp/json_reader.cpp:1050-1140 | the text of a well formed tree, comments and all, anywhere in a document and for all features, is read as what the tree means; and the rules are kept in reading it exactly if the tree is regular |
| JsonAccepted.ValueSound | PlayerServer/jsoncpp/json_reader.cpp:1050-1544 | for every document, comments and all: without the features that add tokens, every value that is read is the text of a well formed tree that means it |
| JsonAccepted.TextAccepted | PlayerServer/jsoncpp/json_reader.cpp:1004-1048 | with all features, a document that is the text of a tree, white space and comments around it, is accepted and read as what the tree means |
| JsonAccepted.AcceptedExactly | PlayerServer/jsoncpp/json_reader.cpp:1004-1544 | without the features that add tokens, a document is accepted if and only if it is the text of a well formed tree, and then it is read as what the tree means; it is the text of a regular tree if and only if moreover the rules were kept: a comment after a member is followed by a comma or a brace, and so on |
| JsonAccepted.CommentForComma | PlayerServer/jsoncpp/json_reader.cpp:1487-1498 | a document that is not JSON and is accepted with all features: after a comment any token passes for a comma |
| JsonFeatures.SpecialFloat | PlayerServer/jsoncpp/json_reader.cpp:1199-1244 | `NaN` and the infinities are those numbers with the feature for them, and are refused without it |
| JsonFeatures.SingleQuoted | PlayerServer/jsoncpp/json_reader.cpp:1174-1180 | what a string in single quotes means with the feature for it, and that it is refused without |
| JsonFeatures.DroppedNull | PlayerServer/jsoncpp/json_reader.cpp:1112-1127 | a null stands for a value that is missing with the feature for it, and what comes next is left to be read; without it that is refused |
| JsonFeatures.NumericName | PlayerServer/jsoncpp/json_reader.cpp:1460-1467 | an integer as a name is its value in decimal, with the feature for it |
| JsonFeatures.TextFollowed | PlayerServer/jsoncpp/json_reader.cpp:1024-1034 | where text after the value is allowed, the text of a tree is read whatever follows |
| JsonFeatures.AcceptedBegins | PlayerServer/jsoncpp/json_reader.cpp:1004-1048 | and every document accepted without the features that add tokens begins with the text of a tree that means the value |
| JsonReader.OurReader.ReadComment | PlayerServer/jsoncpp/json_reader.cpp:1294-1388 | where a comment ends, and whether it is one |
| JsonReader.OurReader.ReadNumber | PlayerServer/jsoncpp/json_reader.cpp:1390-1415 | where a number ends: digits, a fraction, an exponent |
| JsonReader.OurReader.ReadQuoted | PlayerServer/jsoncpp/json_reader.cpp:1416-1438 | the first quote without a backslash ends the string; without one it fails at the end of the document |
| JsonReader.OurReader.ReadToken | PlayerServer/jsoncpp/json_reader.cpp:1152-1261 | on every document, at every position and for all features: the kind of the token, malformed ones included, and its place |
| JsonReader.OurReader.RecoverFromError | PlayerServer/jsoncpp/json_reader.cpp:1782-1793 | recovery ends, and leaves the errors as they were |
| JsonReader.OurReader.DecodeUnicodeEscapeSequence | PlayerServer/jsoncpp/json_reader.cpp:1747-1771 | four hexadecimal digits or an error |
| JsonReader.OurReader.DecodeUnicodeCodePoint | PlayerServer/jsoncpp/json_reader.cpp:1722-1745 | one escape, or two for a surrogate pair, or an error |
| JsonReader.OurReader.DecodeString | PlayerServer/jsoncpp/json_reader.cpp:1669-1720 | the decoding of the text between the quotes; an error exactly when there is none |
| JsonReader.OurReader.DecodeNumber | PlayerServer/jsoncpp/json_reader.cpp:1556-1656 | an integer exactly for an integer token within range, otherwise what the conversion to a double gives; an error exactly when that fails |
| JsonReader.OurReader.ReadValue | PlayerServer/jsoncpp/json_reader.cpp:1050-1140 | ends on every document, in the value and at the place that `ParseValue` says, or fails or throws as it says; the stack below is as it was; errors are new exactly on failure |
| JsonReader.OurReader.ReadObject | PlayerServer/jsoncpp/json_reader.cpp:1440-1502 | the same for an object, whose last member with a key counts |
| JsonReader.OurReader.ReadArray | PlayerServer/jsoncpp/json_reader.cpp:1504-1544 | the same for an array |
| JsonReader.OurReader.Parse | PlayerServer/jsoncpp/json_reader.cpp:1004-1048 | on every document and for all features: it ends in the value, the failure or the exception of `ParseDocument`; unless there is an exception the stack is empty and it returns true exactly when there are no errors |
| JsonWriter.LaidLays | PlayerServer/jsoncpp/json_writer.cpp:940-1051 | what is printed is a layout of the value, in white space if the settings are |
| JsonIndent.OneLineIs | PlayerServer/jsoncpp/json_writer.cpp:1053-1078 | an array goes on one line if and only if comments are off, it has few enough items, there is nothing inside them, and the line as printed is shorter than the margin |
| JsonIndent.LaidIndented | PlayerServer/jsoncpp/json_writer.cpp:970-1111 | every item or member on a line of its own comes after a line break and as many copies of the indentation as it is deep, and every closing bracket after one copy less; the items of an array on one line are apart by blanks |
| JsonIndent.WrittenIndented | PlayerServer/jsoncpp/json_writer.cpp:925-1111 | so it is for the whole output; and without indentation there is no line break in it |
| JsonWriter.BuiltStyledStreamWriter.WriteValue | PlayerServer/jsoncpp/json_writer.cpp:940-1001 | the text printed is that of the value's layout at the present indentation, after a line break where one is due; when measuring, the text is added to the measured ones and nothing is printed |
| JsonWriter.BuiltStyledStreamWriter.WriteArrayValue | PlayerServer/jsoncpp/json_writer.cpp:1003-1051 | the same for an array, on one line or several |
| JsonWriter.BuiltStyledStreamWriter.IsMultilineArray | PlayerServer/jsoncpp/json_writer.cpp:1053-1078 | exactly which arrays take several lines; nothing is printed; an array for one line has all its children measured |
| JsonWriter.BuiltStyledStreamWriter.WriteLine | PlayerServer/jsoncpp/json_writer.cpp:1035-1049 | measured children printed on one line |
| JsonWriter.BuiltStyledStreamWriter.WriteLines | PlayerServer/jsoncpp/json_writer.cpp:1008-1034 | children printed on lines of their own, measured or not, with the same text |
| JsonWriter.BuiltStyledStreamWriter.WriteObjectValue | PlayerServer/jsoncpp/json_writer.cpp:970-999 | the members of an object, each on a line of its own |
| JsonWriter.BuiltStyledStreamWriter.Write | PlayerServer/jsoncpp/json_writer.cpp:925-939 | the output is the text of the value's layout, with no line break before it, and the ending; whatever was printed before |
| JsonRoundTrip.LayoutMeans | PlayerServer/jsoncpp/json_writer.cpp:940-1051 | every layout of a value is the text of a well formed tree that means the value's normal form |
| JsonRoundTrip.PrintedRead | PlayerServer/jsoncpp/json_reader.cpp:1004-1544 | for any white settings and all features that admit the value, the printed text is accepted and read as the value, up to signedness of small unsigned integers and repair of strings |
| JsonRoundTrip.ExactNormal | PlayerServer/jsoncpp/json_reader.cpp:1622-1631 | values in normal form come back exactly |
| JsonRoundTrip.NormalExact | PlayerServer/jsoncpp/json_reader.cpp:1622-1631 | what comes back is in normal form, so writing and reading it again changes nothing |
| JsonRoundTrip.BuiltComesBack | PlayerServer/jsoncpp/json_reader.cpp:1440-1544 | every value the reader can build, doubles aside, is one that can be written and comes back exactly |
| JsonRoundTrip.WriteThenRead | PlayerServer/jsoncpp/json_writer.cpp:925-939 | the two objects used one after the other give the value back |
| JsonRoundTrip.Reparse | PlayerServer/jsoncpp/json_reader.cpp:1004-1544 | for every document and all features: if it is accepted and its value holds no doubles, printing the value in any layout that keeps UTF-8 and parsing the text gives the same value |

## Left out

- Response parsing (`s_res_*`, `s_start_req_or_res`, `s_body_identity_eof`), lenient mode, the non-strict build,
  `http_parser_pause`, callbacks that fail or change the parser: more cases without harder properties.
- Runs that exhaust the header budget: which error is reported, and which callbacks come before it, depends on the cut
  for those runs; the theorems on splitting and independence say where they exclude them.
- HttpExecute.HttpParser.Execute: buffers so long that the 32-bit `nread` could wrap within one call (`MAX_BUFFER`). The one-byte
  cases of the `switch` are one function, used by the parser in place and by the byte-at-a-time machine.
- HttpWrapper.CHttpParser.Parse: a run that exhausts the header budget has no stated outcome, because the callbacks before
  the error depend on the skipping loop; chunked or fragmented bodies keep only their last piece, as in the code.
- UrlFields.ParseUrl: buffers beyond 65535 bytes, whose offsets the 16-bit fields of the result cannot hold.
- UrlText.UrlParser.Parse: `atoi` on a port that does not fit an int, which the C library leaves undefined, is taken as the
  mathematical value.
- HttpTransfer.ChunkedIsLast: one direction only; the matcher is deliberately conservative.
- JSON comments are recognised and skipped, but not attached to values; values are written without comments. Source offsets
  of values are not modelled, and the messages and positions of errors are, but nothing is proved about them.
- JsonAccepted.AcceptedExactly: the features that add tokens (dropped nulls, numeric keys, single quotes, special floats) are
  off, and text after the value is refused; `JsonFeatures` has what each of them adds, and for whole documents `JsonParse`, on
  which the reader agrees.
- HttpRequests.RoundTrip: SOURCE requests with `ICE/` for `HTTP/`, and Transfer-Encoding lines with more than `chunked`, are not
  printed.
- JSON doubles: printing and reading them is the C library's; the writer and the reader take these two functions as
  parameters, and doubles are excluded from the round trip and from the ordering.
- Sparse arrays: the model's arrays are dense, as the reader builds them.
- JSON sizes beyond 32 bits: string lengths and array indices are taken not to overflow their C types.
- The deprecated classes `Reader`, `FastWriter`, `StyledWriter` and `StyledStreamWriter`, `Path`, iterators, allocators and the
  builders' settings.
- Sockets, epoll, threads, the logger, processes, SQL, MD5 and `main.cpp`.

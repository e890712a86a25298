# Models and proofs for the TeamTalk server

The server side of TeamTalk is a family of C++ processes: a message server that clients log in to,
a file server, a proxy in front of the data base and the cache, and a shared base library with a
connection class, a packet format, an HTTP parser and some codecs. This project models the parts of
it whose correctness does not show from any one function, and proves properties of them. The
models follow the code branch by branch, with its constants, its error returns and its quirks.

| part | files |
|---|---|
| resumable HTTP/1.x parser | `HttpTypes`, `HttpSwitch` (the switch), `HttpRun` (one byte at a time), `HttpLog`, `HttpMarks`, `HttpExecute` (the parser as it runs), `HttpInvariant`, `HttpErrors`, `HttpSplit`, `HttpMethods`, `HttpStartLine`, `HttpHeaderNames`, `HttpHeaderValues`, `HttpHeaderLines`, `HttpBodies`, `HttpMessages`, `HttpPipeline` (whole streams), `HttpEof`, `HttpBoth`, `HttpTables`, `HttpUrlGrammar`, `HttpUrl` (splitting a URL), `HttpHostGrammar`, `HttpUrlFields` |
| registry of logged-in users | `UserRegistry` (state, steps, invariant), `RegistryRuns` (every run), `RegistryWaiting` (who still waits), `RegistryEffects` (what a step leaves), `MsgServer` (the handlers) |
| file transfers | `OfflineFile`, `OfflineTask`, `OfflineRuns`, `OfflineAnswers`, `OfflineRoundTrip`, `TransferTask` (the object), `OnlineTask` |
| pools of data-base and cache connections | `ConnPool` |
| framed connection and packets | `SimpleBuffer`, `Framing`, `ImConn`, `ImPdu` |
| JSON | `JsonText`, `JsonParse`, `JsonStrings`, `JsonRoundTrip`, `JsonColons`, `JsonFixed`, `JsonDocs` (any layout), `JsonReader` (the parser as it runs) |
| codecs and digest | `Base64`, `Aes`, `Md5` |
| route servers | `RouteMaster` |
| shared | `CBytes` |

Code that works in place is a class or a method here, proved against functions on values; the
properties are lemmas about those functions and about every run of them.

Where the code and its purpose part, the code is followed, and the exact condition under which it
meets its purpose is proved:

- A login with the empty name does not count as a login, because the handler asks for the length
  of the name. Such a connection can log in twice, and then a user keeps it after it has closed.
  All later runs are safe if and only if the name is not empty (`LoginIsSafeIffNamed`).
- The upload of an empty file never ends, because no block is the last one
  (`UploadCanEndIffNotEmpty`).
- `ChangePullState` returns true also when it does not change the state; its result tells only
  whether the role fits the user. Claims here are about the state.
- JSON escapes control characters with four hexadecimal digits but reads them as decimal ones, and
  prints an entry with an empty key without a key. The round trip holds exactly for values without
  either (`RoundTripIff`); an empty key of the outermost object makes the parse fail
  (`EmptyKeyFails`), and one further inside can lose the data without an error
  (`InnerEmptyKeyIsSilent`).
- The user of a login name is deleted with its last validated connection, whatever still waits
  under the name; the answer for a connection that is left behind in this way is ignored
  (`KeptIffNotDropped`, `LeftBehindIsIgnored`).
- An upload that a close interrupts is lost, because only a task that still waits for its first
  block is kept (`InterruptedIsLost`); a complete one can be fetched again after any close
  (`FetchedAfterClose`).
- A login that fails closes its connection also when it had logged in before, and with it the
  transfer (`LoginsMeet`).
- The table of hexadecimal digits of the HTTP parser has 128 of its 256 initialisers, so that bytes
  from 128 up are read as digit 0.
- The HTTP parser takes a version whose minor number is 0 (such as 2.0) for one before 1.1 when it
  decides whether the connection persists (`StateBehind`), joins digits of a length that have
  spaces between them (`LengthTakenIff`, `PlainLengthIff`), and counts the bytes of a trailer towards the header limit of
  the next message (`MessageDelivered`).
- The setters of a packet write to its buffer and not to its header struct; a later `SetPBMsg`
  discards what they wrote (`Reuse`).

## Model

| member | source | states |
|---|---|---|
| HttpExecute.HttpParser.Execute | server/src/base/http_parser.cpp:572-1863 | A call on a parser with an error does nothing; an empty call is the end of the stream; any other call leaves the struct, the errno and the offset of the machine that takes one byte at a time (`Run`), and its callbacks, with marks, re-execution and bulk skips, deliver the bytes and notices of that machine, but for the data last marked when there is an error |
| HttpExecute.HttpParser.ByteLoop | server/src/base/http_parser.cpp:632-1855 | The loop over the bytes, with its marks and its skips over whole body pieces, refines the byte machine on any data |
| HttpExecute.HttpParser.ExecuteByte | server/src/base/http_parser.cpp:632-1832 | All passes over one byte: the switch runs again, on the changed struct and the same byte, as long as it jumps back |
| HttpExecute.HttpParser.FlushLeftOver | server/src/base/http_parser.cpp:1835-1855 | At the end of the data at most one mark is set, and flushing it delivers exactly what is pending |
| HttpSplit.SplitIndependence | server/src/base/http_parser.cpp:572-1863 | Feeding an input in any non-empty pieces, as long as a piece is used up without error or upgrade, gives the struct, errno and total offset that feeding it whole gives; without an error also the same callbacks, once empty data callbacks are dropped and adjacent ones of a kind are joined |
| HttpSplit.OneCall | server/src/base/http_parser.cpp:572-1863 | How a caller tells from the offset, errno and upgrade bit of one call whether to go on, in terms of the byte machine |
| HttpRun.AnySplit | server/src/base/http_parser.cpp:632-1832 | The byte machine on any division of an input is the byte machine on the whole of it |
| HttpLog.SameDelivery | server/src/base/http_parser.cpp:84-112 | Two callback logs deliver the same bytes and notices exactly when they have the same normal form |
| HttpInvariant.KeepsRun | server/src/base/http_parser.cpp:1241-1848 | From a well-formed struct no byte sequence makes an assert fail, every matcher index stays inside its string, and without an error the struct stays well formed |
| HttpInvariant.InitiallyWellFormed | server/src/base/http_parser.cpp:1916-1925 | The struct after `http_parser_init` is well formed |
| HttpInvariant.HeaderBytesBounded | server/src/base/http_parser.cpp:632-642 | The header bytes taken since the counter was last reset are what the counter says, and never more than 80 * 1024 without an error |
| HttpInvariant.ErrnoOfRun | server/src/base/http_parser.cpp:1857-1863 | errno is set exactly when the machine fails |
| HttpInvariant.UpgradeOfRun | server/src/base/http_parser.cpp:1570-1617 | The machine stops early, without an error, exactly when the upgrade bit is set |
| HttpErrors.ErrorIff | server/src/base/http_parser.cpp:632-1832 | In every state but inside of a method or a URL a byte is an error if and only if a table of what may come next, with its own character ranges, says so, or it is one header byte too many; and the error is the one of the table |
| HttpErrors.ErrorOfRun | server/src/base/http_parser.cpp:1857-1863 | Every run that fails does so at one byte, with the error of the table for the state reached there |
| HttpMethods.MethodRecognised | server/src/base/http_parser.cpp:872-994 | What precedes the first space is accepted if and only if it is the name of a method, and then that method is recorded |
| HttpMethods.ConsumedIsPrefix | server/src/base/http_parser.cpp:913-994 | Through all switches of the candidate the bytes consumed so far are the prefix of the current candidate that the index says |
| HttpMethods.Leads | server/src/base/http_parser.cpp:872-994 | The bytes of any method name lead the recogniser, candidate by candidate, to that method |
| HttpBodies.ChunkedDecoding | server/src/base/http_parser.cpp:1710-1829 | Any list of non-empty chunks with any sizes and extensions that the parser takes, ended by the zero chunk and an empty line, is delivered as the concatenation of the chunks and then one message-complete (section 3.6.1 of RFC 2616) |
| HttpPipeline.StreamDelivered | server/src/base/http_parser.cpp:572-1863 | Parsing undoes printing, whole: a new parser, called on any stream of requests (or responses) of one connection in any non-empty pieces, uses all bytes without an error, and its callbacks deliver message by message the URL, the header names and values, the headers-complete, the data of the body, the trailing headers and the message-complete, in order; it ends in the state that the last message asks for |
| HttpPipeline.MessageDelivered | server/src/base/http_parser.cpp:632-1832 | One message with any method, URL, version or status, with or without a version, extra spaces and line breaks before it, any header lines (also folded ones, empty values, names without a colon), lines ended by CR LF or a bare LF, and the body that they announce (none, a length, chunks with a trailer, or up to the end of the stream) is delivered piece for piece; the parser is then ready for the next one exactly when the connection persists |
| HttpEof.EofBehindStream | server/src/base/http_parser.cpp:586-608 | The empty call behind a stream of messages: it completes a body that goes to the end of the stream, and otherwise does nothing; it is no error |
| HttpEof.EofInRequests | server/src/base/http_parser.cpp:586-608 | After any bytes that a parser of requests took without incident, the empty call is an error if and only if a message was announced and not completed |
| HttpEof.RunBalance | server/src/base/http_parser.cpp:394-396 | In a stream of requests the state is one between messages exactly when as many messages were completed as announced |
| HttpBoth.ReadsAsOne | server/src/base/http_parser.cpp:657-692 | A parser that is to find out what it reads: a message that begins with HT is read exactly as by a parser of responses, one with HE or another letter exactly as by a parser of requests, and any other byte behind an H is an error |
| HttpBoth.BreakByte | server/src/base/http_parser.cpp:657-659 | Line breaks before its first message are skipped |
| HttpPipeline.HandedOver | server/src/base/http_parser.cpp:1570-1631 | A request that asks for an upgrade, or CONNECT, ends the call exactly behind its empty line, with the upgrade bit set; the bytes behind it are not touched |
| HttpPipeline.BodyFacts | server/src/base/http_parser.cpp:1570-1660 | When the headers are complete the struct says of the body what the lines say: each flag is set exactly when some line asks for it, the last Content-Length counts, and the body goes to the end of the stream exactly for responses with neither length nor chunks whose status allows a body |
| HttpPipeline.StateBehind | server/src/base/http_parser.cpp:1865-1906 | Behind a message the parser waits for the next one exactly when the connection persists: by default if both version numbers are positive, unless a line says close; else only if a line says keep-alive; lines of the trailer count too |
| HttpMessages.MessageRun | server/src/base/http_parser.cpp:1191-1832 | From the first header line to the end of the body, for requests and responses |
| HttpMessages.LinesRun | server/src/base/http_parser.cpp:1191-1568 | A list of header lines, also folded ones, delivers its names and values in order and leaves the flags and the length that the lines ask for |
| HttpMessages.TrailerRun | server/src/base/http_parser.cpp:1191-1577 | Header lines behind the zero chunk are delivered as such, and the empty line behind them completes the message |
| HttpMessages.HeadersEnd | server/src/base/http_parser.cpp:1570-1660 | The line feed that ends the headers: what is announced, and the one of five ways in which the message goes on |
| HttpHeaderLines.LineRun | server/src/base/http_parser.cpp:1191-1568 | One header line (a name without a colon; a name, any blanks and a value that may be empty; or a line that continues the value before it), ended by CR LF or a bare LF: its name and value are delivered, and it sets the flag or the length exactly when its name and value say so |
| HttpHeaderLines.ValueAsks | server/src/base/http_parser.cpp:1535-1556 | At the end of a line the value matcher stands on chunked, keep-alive or close exactly when the name and the value say so |
| HttpHeaderNames.NameIsExact | server/src/base/http_parser.cpp:1191-1346 | At the end of a name the matcher has found a known header exactly when the name, in any case, is that header |
| HttpHeaderNames.NextName | server/src/base/http_parser.cpp:1258-1346 | After each character of a name the matcher stands where the part read so far says: on the words it is the beginning of, or on none |
| HttpHeaderValues.NextValue | server/src/base/http_parser.cpp:1438-1533 | After each character of a value the matcher stands where the part read so far says: inside a known word, on one with spaces behind it, or on none; a length is the number of its digits |
| HttpHeaderValues.LengthTakenIff | server/src/base/http_parser.cpp:1412-1487 | Below the wrap a Content-Length value is taken if and only if it is digits with spaces between and behind them, and then the length is the number of all its digits; any other is an error |
| HttpHeaderValues.PlainLengthIff | server/src/base/http_parser.cpp:1466-1484 | The digits that count are those before the first space exactly when none comes behind a space |
| HttpHeaderValues.ValueRun | server/src/base/http_parser.cpp:1371-1533 | A value is delivered as it is, and the matcher says exactly what it is |
| HttpStartLine.RequestLineRun | server/src/base/http_parser.cpp:872-1188 | A request line, with any number of spaces, with a version or without, ended by CR LF or a bare LF, announces a message and delivers its URL; the struct has the method and the version that the line says |
| HttpStartLine.StatusLineRun | server/src/base/http_parser.cpp:694-870 | A status line, with any number of spaces before the code, announces a message, and its own end when that is CR LF; the struct has the version and the status code that the line says |
| HttpStartLine.UrlRun | server/src/base/http_parser.cpp:996-1067 | A URL that the recogniser accepts is delivered as it is; which ones these are is `AcceptedIffUrl` |
| HttpUrlGrammar.AcceptedIffUrl | server/src/base/http_parser.cpp:425-569 | The URLs that the recogniser accepts are exactly those of a grammar with its own character ranges: a path from a slash or an asterisk, with a query and a fragment or without, schema://server with such a path, and for CONNECT what begins with the server |
| HttpUrlGrammar.TakenIffUrl | server/src/base/http_parser.cpp:996-1067 | A word followed by a space where a URL is due: a URL of the grammar is delivered and the version is next; anything else is an invalid URL |
| HttpUrlGrammar.OneReading | server/src/base/http_parser.cpp:425-569 | A text has at most one division into schema, server, path, query and fragment |
| HttpTables.TokenCharacters | server/src/base/http_parser.cpp:145-177 | The token characters are those of section 2.2 of RFC 2616 |
| HttpTables.TokenIsLowerCase | server/src/base/http_parser.cpp:145-177 | Capital letters are mapped to small ones, and every other token character to itself |
| HttpTables.HexDigits | server/src/base/http_parser.cpp:180-197 | The sixteen digits have their values in either case |
| HttpTables.NoOtherDigit | server/src/base/http_parser.cpp:180-197 | No other byte below 128 is a digit, and from there on every byte is read as zero |
| HttpRun.IdentityRun | server/src/base/http_parser.cpp:1662-1697 | Body bytes of a known length are delivered as they are and counted down; the last one completes the message |
| HttpRun.ChunkRun | server/src/base/http_parser.cpp:1790-1811 | The data bytes of a chunk are delivered as they are and counted down to the end of the chunk |
| HttpTypes.Unhex | server/src/base/http_parser.cpp:180-197 | Which bytes are hexadecimal digits for the chunk size; the table is short, so that bytes from 128 up count as digit 0 |
| HttpUrl.ParseHost | server/src/base/http_parser.cpp:2004-2074 | The host loop fails exactly when the host machine does not end in an accepting state; otherwise user info, a non-empty host and a port of digits are disjoint, ordered slices of the authority with nothing but delimiters between them |
| HttpUrl.ParseUrl | server/src/base/http_parser.cpp:2077-2174 | The split fails exactly when the input is malformed, CONNECT has not exactly a host and a port, or the port is above 65535; otherwise every field is a non-empty slice, fields are disjoint and in order, a schema, user info or port comes with a host, and the port is the value of its digits unless a digit follows the input |
| HttpHostGrammar.ValidIffAuthority | server/src/base/http_parser.cpp:2004-2074 | The host loop accepts exactly the authorities of a grammar, user@host:port with a name or a bracketed address, and finds exactly these parts |
| HttpUrlFields.MalformedIff | server/src/base/http_parser.cpp:2077-2148 | An input is malformed if and only if it is neither empty nor a URL of the grammar whose authority, if it has one, is one of the grammar |
| HttpUrlFields.FieldsAreParts | server/src/base/http_parser.cpp:2077-2174 | The fields of a split are the parts of the grammar: schema, user, host, port, path, query, and the fragment without further number signs in front |
| HttpUrlFields.RefusedIff | server/src/base/http_parser.cpp:2118-2174 | A URL of the grammar is refused if and only if CONNECT asks for anything but a host and a port, or the port is above 65535 (unless a digit follows the input in memory) |
| RegistryRuns.RunsAreSafe | server/src/msg_server/DBServConn.cpp:320-449 | In every run of connects, logins with non-empty names, data-base answers and closes: no step follows a reference to a deleted object; every entry of the id index is a live, validated user with that id and at least one connection, and is the name entry of its login name; no live user holds a closed connection |
| RegistryRuns.LoginIsSafeIffNamed | server/src/msg_server/MsgConn.cpp:399-457 | A first login keeps all later runs safe if and only if its name is not empty: the test against a second login asks for the length of the name |
| RegistryRuns.SecondLogin | server/src/msg_server/MsgConn.cpp:402-405 | The run that fails: a connection logs in under the empty name, logs in again under another, and closes; the user of the empty name still holds it |
| RegistryRuns.GoodRuns | server/src/msg_server/DBServConn.cpp:320-449 | The inductive invariant of the registry holds after every run |
| RegistryRuns.GoodIsSafe | server/src/msg_server/ImUser.cpp:240-278 | The invariant implies the safety of both indexes and of what users hold |
| RegistryWaiting.KeptIffNotDropped | server/src/msg_server/DBServConn.cpp:320-449 | In every run in which a connection keeps waiting for its answer, the user of its name still holds it at the end if and only if no step deleted that user: by closing its last validated connection, or, while it had none, by closing, refusing or merging away another connection that logged in under the same name |
| RegistryWaiting.StepKept | server/src/msg_server/MsgConn.cpp:161-208 | The same for one step: exactly which step leaves a waiting connection behind |
| RegistryWaiting.LeftBehindIsIgnored | server/src/msg_server/DBServConn.cpp:330-342 | The answer of the data base for a connection that was left behind is ignored |
| RegistryWaiting.FirstLoginKept | server/src/msg_server/MsgConn.cpp:450-457 | A first login is held by the user of its name |
| RegistryEffects.PositiveAnswer | server/src/msg_server/DBServConn.cpp:350-402 | A positive answer to a login that is awaited opens exactly its connection, with the id of the data base; the user that has this id, or else the user of the name, is indexed under it and holds the connection under its handle; nothing else changes, except that the user of the name is gone when another user has the id |
| RegistryEffects.NegativeAnswer | server/src/msg_server/DBServConn.cpp:403-449 | A refusal closes exactly that connection; no user holds it any more, and the user of the name is gone if it has no validated connection |
| RegistryEffects.CloseEffect | server/src/msg_server/MsgConn.cpp:161-208 | A close closes exactly its connection and takes it from whoever holds it; the users of its id and of its name are deleted exactly if they are then without validated connections, and the indexes lose exactly the entries of deleted users |
| RegistryEffects.LoginEffect | server/src/msg_server/MsgConn.cpp:399-457 | A first login makes the connection wait, held by the user of its name or by a new one; a later login changes nothing |
| RegistryEffects.LoginOpens | server/src/msg_server/DBServConn.cpp:320-402 | From every good state: a connection that is accepted, logs in and is answered positively is open with the id of its name, and registered |
| RegistryEffects.OpenUntilClosed | server/src/msg_server/MsgConn.cpp:161-208 | In every run an open connection stays as it is, and stays registered, until its own close |
| UserRegistry.ConnectKeeps | server/src/msg_server/MsgConn.cpp:210-222 | A new connection, also at the address of one that was closed, keeps the invariant |
| UserRegistry.LoginKeeps | server/src/msg_server/MsgConn.cpp:399-457 | A login with a name keeps the invariant, whether it makes a user, finds one, or is refused |
| UserRegistry.AnswerKeeps | server/src/msg_server/DBServConn.cpp:320-449 | An answer of the data base keeps the invariant and follows no dangling reference: unknown name, no waiting connection, refusal, first connection of an id, further connection, and a name whose id another user has |
| UserRegistry.IndexedSurvives | server/src/msg_server/DBServConn.cpp:358-363 | The user that the answer may delete is never one that an index entry of an id points to |
| UserRegistry.AwaitsOne | server/src/msg_server/ImUser.cpp:32-43 | At most one waiting connection of a user has a given handle, so that the search does not depend on the order of the set |
| UserRegistry.MergeLeaves | server/src/msg_server/DBServConn.cpp:347-363 | Moving the connection to the user of its id and deleting the emptied one is, in effect, the second half of a close |
| UserRegistry.CloseKeeps | server/src/msg_server/MsgConn.cpp:161-208 | A close, with its two lookups and its two possible deletions, keeps the invariant; afterwards nobody holds the connection |
| UserRegistry.LeaveByIdKeeps | server/src/msg_server/MsgConn.cpp:169-178 | After the first half of a close the invariant holds but for the closing connection, and no user holds it if it was open |
| UserRegistry.LeaveByNameKeeps | server/src/msg_server/MsgConn.cpp:180-186 | After the second half no user holds the closing connection |
| MsgServer.ImUserManager.RemoveImUser | server/src/msg_server/ImUser.cpp:269-277 | Leaves both indexes and deletes the user |
| MsgServer.ImUserManager.OnConnect | server/src/msg_server/MsgConn.cpp:210-222 | A connection object with no name, no id, not open |
| MsgServer.ImUserManager.HandleLoginRequest | server/src/msg_server/MsgConn.cpp:399-457 | Closes the connection when a server behind it is missing; otherwise the handler takes the login step of the model on all four maps |
| MsgServer.ImUserManager.CloseConn | server/src/msg_server/MsgConn.cpp:161-208 | The handler takes the close step of the model and keeps the invariant |
| MsgServer.ImUserManager.LeaveUserOfId | server/src/msg_server/MsgConn.cpp:169-178 | The first half of a close: the user of the id gives the connection up, and is deleted when it has none left |
| MsgServer.ImUserManager.LeaveUserOfName | server/src/msg_server/MsgConn.cpp:180-186 | The second half: the user of the login name |
| MsgServer.ImUserManager.GetUnValidateMsgConn | server/src/msg_server/ImUser.cpp:32-43 | Finds a waiting connection with the handle, or there is none |
| MsgServer.ImUserManager.HandleValidateResponse | server/src/msg_server/DBServConn.cpp:320-449 | The handler takes the answer step of the model and keeps the invariant; what that step leaves is `PositiveAnswer` and `NegativeAnswer` |
| MsgServer.ImUserManager.AcceptConn | server/src/msg_server/DBServConn.cpp:350-402 | A positive answer: take over, give up, delete, and enter; its effect is `PositiveAnswer` |
| MsgServer.ImUserManager.EnterConn | server/src/msg_server/DBServConn.cpp:371-402 | Id, validation, index entry, and the opened connection, in the order of the code |
| MsgServer.ImUserManager.ValidateMsgConn | server/src/msg_server/ImUser.cpp:55-59 | The connection moves from the waiting set into the map |
| OfflineRoundTrip.RoundTrip | server/src/file_server/transfer_task.cpp:377-615 | For 0 < size < 2^31: the sender logs in and sends its blocks in order, the task is deleted, the receiver logs in and loads it from disk, and pulls at successive offsets return the uploaded bytes in order |
| OfflineRoundTrip.FetchedAfterClose | server/src/file_server/file_client_conn.cpp:70-96 | After every run that has completed the upload, with a download under way or not: when the connection closes and the receiver logs in again, pulls from the start return the whole file |
| OfflineRoundTrip.InterruptedIsLost | server/src/file_server/file_client_conn.cpp:84-90 | An upload that a close interrupts is lost: the task is gone, and all that is tried afterwards fails and changes nothing |
| OfflineRoundTrip.CloseLeaves | server/src/file_server/transfer_task_manager.cpp:79-107 | A close leaves the file, and of the tasks only one that waits for an upload |
| OfflineRoundTrip.FailureCloses | server/src/file_server/file_client_conn.cpp:412-573 | A block or a pull that fails, and the last one, leave no task but one that waits for an upload |
| OfflineAnswers.LoginSucceedsIff | server/src/file_server/file_client_conn.cpp:223-313 | In every history a login succeeds if and only if the task is in memory, or is downloaded and complete on disk, and the role fits the user; and the state that it leaves |
| OfflineAnswers.BlockSucceedsIff | server/src/file_server/transfer_task.cpp:377-455 | In every history a block succeeds if and only if the sender sends the next one while the upload is on, the first one if the file opens; a failure changes nothing but closes |
| OfflineAnswers.PullSucceedsIff | server/src/file_server/transfer_task.cpp:457-615 | In every history a pull succeeds if and only if the receiver asks for the next block of a complete upload, the first one if the file opens |
| OfflineRuns.UploadIsOrdered | server/src/file_server/transfer_task.cpp:377-455 | In every run a block is accepted only where the accepted bytes end, adds min(32768, what is missing) bytes, and reports the end exactly when all bytes are there, which is with block number ceil(size / 32768) |
| OfflineRuns.NoPrefixLoads | server/src/file_server/transfer_task.cpp:261-290 | In every run the file loads exactly when the upload is complete, never as a proper prefix, and what loads is the task with its sender, receiver and size and an empty file name |
| OfflineRuns.PullsReturnTheUpload | server/src/file_server/transfer_task.cpp:457-615 | In every run, across deletion and reload of the task: a pull that succeeds is by the receiver and returns the uploaded bytes at its offset |
| OfflineRuns.PullReturnsBlock | server/src/file_server/transfer_task.cpp:457-560 | A pull that succeeds returns the block at its offset, and reports the end exactly with the last |
| OfflineRuns.BlockAccepted | server/src/file_server/transfer_task.cpp:377-455 | An accepted block is the next one, in an upload that is not complete |
| OfflineRuns.RunKeeps | server/src/file_server/file_client_conn.cpp:70-573 | The invariant of one transfer (task, file, accepted bytes) holds after every run of logins, blocks, pulls and closes; that a close leaves no stuck task is `CloseLeaves` and `FetchedAfterClose` |
| OfflineRuns.SegmentFacts | server/src/file_server/transfer_task.h:289-309 | The number of segments is size / 32768 rounded up, and only the last block is short |
| OfflineRoundTrip.UploadCanEndIffNotEmpty | server/src/file_server/transfer_task.cpp:445-452 | Some run brings an upload to its end if and only if the file is not empty: an empty file has no last segment and its upload goes on for ever |
| OfflineRoundTrip.EmptyRun | server/src/file_server/transfer_task.cpp:377-455 | No run of an upload of an empty file leaves the upload states |
| OfflineFile.HeaderReadBack | server/src/file_server/transfer_task.h:48-114 | The getters read back what the setters wrote for every field, but the file name, which the upload leaves empty, and a task id of 128 bytes or more, which runs on into the next field |
| OfflineFile.HeaderLayout | server/src/file_server/transfer_task.h:48-80 | The header has six fields of 128, 64, 64, 128, 512 and 64 bytes, each with its text and then NUL |
| OfflineFile.IdReadBack | server/src/file_server/transfer_task.h:53-79 | The task id comes back exactly when it has no NUL and either fewer than 128 bytes or behind them the very number of the next field |
| OfflineFile.LoadsIffComplete | server/src/file_server/transfer_task.cpp:261-290 | A header followed by some bytes loads exactly when these are as many as the header says |
| OfflineFile.NumberReadBack | server/src/base/util.cpp:157-160 | A number written with %u is read back by atoi and the cast to 32 bits |
| OfflineFile.AtoiReads | server/src/base/util.cpp:157-160 | What atoi reads: the digits behind leading space and a sign, up to the first other character |
| TransferTask.OfflineTransferTask.constructor | server/src/file_server/transfer_task.h:247-254 | A new task is ready, at segment 0, with the number of segments of its size |
| TransferTask.OfflineTransferTask.Load | server/src/file_server/transfer_task.cpp:261-290 | A task comes from disk exactly when the file can be opened and loads, and then waits for a download |
| TransferTask.OfflineTransferTask.NextSegmentBlockSize | server/src/file_server/transfer_task.h:289-295 | The size of the next block |
| TransferTask.OfflineTransferTask.ChangePull | server/src/file_server/transfer_task.cpp:297-354 | New state and result of a login; the result says only whether the role fits the user |
| TransferTask.OfflineTransferTask.DoRecvData | server/src/file_server/transfer_task.cpp:377-455 | Task, file and code after a block, in all error cases; other files do not change |
| TransferTask.OfflineTransferTask.WriteHeader | server/src/file_server/transfer_task.cpp:396-425 | The first block opens the file, unless it is open, and writes the header |
| TransferTask.OfflineTransferTask.NextSegment | server/src/file_server/transfer_task.cpp:440-452 | On to the next segment; the last one ends the upload |
| TransferTask.OfflineTransferTask.DoPullFileRequest | server/src/file_server/transfer_task.cpp:457-615 | Task, code and data of a pull, in all error cases |
| OnlineTask.StateIsLogins | server/src/file_server/transfer_task.cpp:126-183 | Until some connection that is logged in closes, the state tells exactly which of the two sides have logged in under their roles; in particular waiting for the transfer, or transferring, means that both have |
| OnlineTask.LoginsMeet | server/src/file_server/file_client_conn.cpp:223-313 | When both sides log in and only logins happen, the transfer gets ready if and only if its users differ and no connection that had logged in tries again with a login that does not fit; otherwise the task ends |
| OnlineTask.StepGoesForward | server/src/file_server/transfer_task.cpp:126-258 | A step goes forward by at most one stage, or makes the task invalid, which it stays |
| OnlineTask.RunGoesForward | server/src/file_server/transfer_task.cpp:126-258 | Along every run the stage never goes back, and invalid is absorbing |
| OnlineTask.ClosedIsInvalid | server/src/file_server/file_client_conn.cpp:70-96 | After the close of any connection that is logged in, asked for or because a step of it failed, the task is invalid for ever |
| OnlineTask.MoveGoesOn | server/src/file_server/transfer_task.cpp:206-258 | When both sides are in: data of a connection logged in as the sender that names it, or a request of one logged in as the receiver, moves the task to the transfer and changes nothing else; any other of a connection that is logged in makes it invalid |
| OnlineTask.MoveTooEarly | server/src/file_server/transfer_task.cpp:206-258 | Before both sides are in, data or a request of a connection that is logged in makes the task invalid |
| OnlineTask.TransferGoesOn | server/src/file_server/file_client_conn.cpp:412-573 | After logins that meet, any number of such data and requests keep the transfer going, in any order; it ends exactly when a connection that is logged in sends what does not fit |
| OnlineTask.ConnsAreSides | server/src/file_server/file_client_conn.cpp:223-313 | After logins alone each side has a connection set exactly when it has come in |
| OnlineTask.CloseForgets | server/src/file_server/file_client_conn.cpp:70-96 | A close makes the task invalid, forgets the connection and unsets that of its side only |
| OnlineTask.OnlineTransferTask.ChangePullState | server/src/file_server/transfer_task.cpp:126-183 | New state and result of a login |
| OnlineTask.OnlineTransferTask.DoTransfer | server/src/file_server/transfer_task.cpp:217-234 | Data or a pull are passed on only when both sides are there |
| OnlineTask.OnlineTransferTask.HandleLogin | server/src/file_server/file_client_conn.cpp:223-313 | The handler takes the login step of the model; a login that fails closes the connection |
| OnlineTask.OnlineTransferTask.HandleData | server/src/file_server/file_client_conn.cpp:495-573 | The handler takes the data step of the model; a failure closes |
| OnlineTask.OnlineTransferTask.HandlePull | server/src/file_server/file_client_conn.cpp:412-493 | The handler takes the pull step of the model; a failure closes |
| ConnPool.Conservation | server/src/db_proxy_server/DBPool.cpp:321-390 | After every interleaving: free connections are distinct, none of them is held, and free and held ones together are the current count, which is at most max(2, configured maximum) |
| ConnPool.NobodyStranded | server/src/db_proxy_server/CachePool.cpp:585-649 | After every interleaving: while a thread waits, the free connections are at most the woken threads that have not run; once these have run, every connection there may be is held; and a state in which nothing is held still has a woken thread and a free connection |
| ConnPool.TakesAlone | server/src/db_proxy_server/CachePool.cpp:601-630 | A connection that a thread gets was free or is new, and nobody held it |
| ConnPool.RunKeeps | server/src/db_proxy_server/DBPool.cpp:342-390 | The invariant of the monitor holds after every interleaving |
| ConnPool.AskIsAnswered | server/src/db_proxy_server/DBPool.cpp:342-371 | A thread that asks gets a connection exactly when one is free, and then the one that has been free longest, or when a new one may be made and works; it waits exactly when the pool is exhausted; else it goes away with nothing; no other thread changes its place |
| ConnPool.OthersStay | server/src/db_proxy_server/DBPool.cpp:373-390 | A connection given back is free behind all others, and exactly the thread that is signalled is woken; a wake-up without a signal moves one thread only |
| ConnPool.HandedOn | server/src/db_proxy_server/DBPool.cpp:342-390 | A waiting thread that a release wakes gets the released connection, if no other thread comes first |
| ConnPool.FirstBackFirstOut | server/src/db_proxy_server/DBPool.cpp:342-390 | Along every run the connections are handed out in the order in which they came back |
| ConnPool.LockedPool.Acquire | server/src/db_proxy_server/DBPool.cpp:342-371 | From the lock to the return or to the wait: take, grow and take, fail, or wait |
| ConnPool.LockedPool.Release | server/src/db_proxy_server/DBPool.cpp:373-390 | Back into the list unless it is there, and one waiting thread is woken |
| SimpleBuffer.CSimpleBuffer.Extend | server/src/base/UtilPdu.cpp:32-38 | Room for the bytes asked for and a quarter more; the contents stay, also when memory is given back |
| SimpleBuffer.RoomIff | server/src/base/UtilPdu.cpp:32-38 | The memory that is asked for, in 32 bits, has room for the contents if and only if they are at most 0xCCCCCCCC bytes |
| SimpleBuffer.CSimpleBuffer.Write | server/src/base/UtilPdu.cpp:40-55 | The contents grow at the end by the data |
| SimpleBuffer.CSimpleBuffer.Read | server/src/base/UtilPdu.cpp:57-68 | The front is taken out, in order, and the rest moves down within the same memory |
| SimpleBuffer.ReadsWhatWasWritten32 | server/src/base/UtilPdu.cpp:105-137 | A big-endian number of 32 bits is read back modulo 2^32, whatever follows it |
| SimpleBuffer.WritesWhatWasRead32 | server/src/base/UtilPdu.cpp:105-137 | Writing what was read gives the bytes back |
| SimpleBuffer.HighestFirst | server/src/base/UtilPdu.cpp:105-137 | The bytes of a number on the wire, the highest first |
| Framing.SplitsDoNotMatter | server/src/base/imconn.cpp:123-164 | However the bytes arrive: the handled units and the end, by a zero length or by a unit whose handler throws, are those of all the bytes framed at once, and while the connection is open the handled bytes and the buffer are the bytes received |
| Framing.OneFraming | server/src/base/ImPduBase.cpp:139-157 | There is exactly one division of the bytes that obeys the length fields and the handler, and it is the one of the loop |
| Framing.NothingLost | server/src/base/imconn.cpp:143-153 | Handled units and what stays are all the bytes, in order |
| Framing.FrameMore | server/src/base/imconn.cpp:143-153 | Framing a first part and then its rest with more bytes is framing it all; a zero length and a failing handler stop both at the same unit |
| Framing.UnitsAreDelivered | server/src/base/imconn.cpp:123-164 | However the bytes of some units, each beginning with its own length, and of the beginning of another one arrive: exactly these units are handled, in order, and the beginning waits in the buffer |
| Framing.ZeroEnds | server/src/base/ImPduBase.cpp:139-157 | A length of zero behind some units ends the connection there |
| ImConn.CImConn.Receive | server/src/base/imconn.cpp:125-139 | What the socket gives is appended to the input buffer, which has room |
| ImConn.CImConn.ReceiveOne | server/src/base/imconn.cpp:127-139 | One piece from the socket |
| ImConn.CImConn.Available | server/src/base/ImPduBase.cpp:139-157 | Whether a whole unit, a zero length, or neither is in front |
| ImConn.CImConn.OnRead | server/src/base/imconn.cpp:123-164 | One reading turn of most servers, with the exception of a zero length or of a handler |
| ImConn.CImConn.OnReadInPlace | server/src/db_proxy_server/ProxyConn.cpp:262-290 | One reading turn of the proxy: the same as that of the other servers |
| ImConn.CImConn.Offer | server/src/base/imconn.cpp:91-108 | What the socket takes of data offered in pieces of at most 128 KiB |
| ImConn.CImConn.Send | server/src/base/imconn.cpp:80-121 | What is sent, what is buffered, and the flag; that an idle connection sends at once is `GoesOut` |
| ImConn.CImConn.OnWrite | server/src/base/imconn.cpp:166-191 | What is sent of the buffer, what stays, and the flag |
| ImConn.NothingLostOrReordered | server/src/base/imconn.cpp:80-191 | After any sends and writable events, whatever the socket takes: bytes taken and bytes buffered are all that was given, in order, and the flag is set exactly when something is buffered |
| ImConn.WillingSocketTakesAll | server/src/base/imconn.cpp:173-184 | A socket that takes all it is offered drains the buffer in one event |
| ImConn.GoesOut | server/src/base/imconn.cpp:80-191 | Data given to an idle connection goes to the socket at once, and a writable event offers what waits; what is then left is what the calls, followed one by one, did not take, so that it waits only because an answer was not positive or there was none |
| ImConn.TakenIsCalls | server/src/base/imconn.cpp:91-108 | The number of bytes taken is the position that the calls of send reach, each offering what is left up to 128 KiB |
| ImConn.WillingDrains | server/src/base/imconn.cpp:80-191 | After any run, a send on an idle connection or a writable event with a willing socket leaves nothing waiting: the socket has all that was ever given, in order |
| ImPdu.BuiltIsRead | server/src/base/ImPduBase.cpp:45-175 | A unit that is built, with any settings written to it afterwards, and read from the front of a stream has the body and the header that were put in, the last value written to each place |
| ImPdu.LastSettingWins | server/src/base/ImPduBase.cpp:58-98 | A field holds the last value that was written to its place, which the error and the sequence number share |
| ImPdu.SetReadsBack | server/src/base/ImPduBase.cpp:58-98 | A setter changes its field, and neither another field, nor the length, nor the body |
| ImPdu.HeaderReadBack | server/src/base/ImPduBase.cpp:45-56 | The header, the length and the body are read back as they were written |
| ImPdu.WireLayout | server/src/base/ImPduBase.cpp:45-56 | The sixteen bytes of a header: the length in four bytes and six fields of two, each with the higher byte first |
| ImPdu.CImPdu.WriteHeader | server/src/base/ImPduBase.cpp:45-56 | The first 16 bytes become the header of the struct under the length of the buffer |
| ImPdu.CImPdu.SetPBMsg | server/src/base/ImPduBase.cpp:159-175 | The buffer becomes that header and the body |
| ImPdu.CImPdu.Set | server/src/base/ImPduBase.cpp:58-98 | A setter writes to the buffer only |
| ImPdu.CImPdu.Read | server/src/base/ImPduBase.cpp:120-137 | A whole unit is copied from the front, with its header in the struct |
| ImPdu.Reuse | server/src/base/ImPduBase.cpp:120-175 | A received unit that gets another body keeps every header field but the length; what setters wrote before is lost |
| JsonFixed.RoundTripIff | server/src/msg_server/jsonxx.cpp:54-549 | For arrays and objects without numbers: parsing the printed text gives the value back if and only if no string and no key has a control character other than 0 to 10, form feed and carriage return, and no key at any depth is empty |
| JsonRoundTrip.ParsePrint | server/src/msg_server/jsonxx.cpp:54-549 | Parsing the printed text always succeeds and gives the value with its strings as they are read back, and leaves the end of the line |
| JsonRoundTrip.EmptyKeyFails | server/src/msg_server/jsonxx.cpp:510-513 | An empty key of the outermost object prints a text that does not parse |
| JsonRoundTrip.InnerEmptyKeyIsSilent | server/src/msg_server/jsonxx.cpp:230-264 | An empty key one object deeper: the text parses, to an empty object, and the data is lost without an error |
| JsonColons.EmptyKeysAreLost | server/src/msg_server/jsonxx.cpp:230-350 | Whatever the parser makes of the text of a value with an empty key at any depth, it is not that value: the text has a colon for each key that is not empty and each colon of a string, and a reading takes at least one for each member it gives |
| JsonColons.ValuePaid | server/src/msg_server/jsonxx.cpp:230-350 | Every reading of a text of tokens, with all its ways to recover, takes at least as many colons as its result has members and colons in strings, and leaves a text of tokens |
| JsonRoundTrip.TagIsBody | server/src/msg_server/jsonxx.cpp:497-548 | The text with its last commas blanked afterwards is the text that never had them |
| JsonRoundTrip.ValueReread | server/src/msg_server/jsonxx.cpp:285-323 | At any depth, behind any space and before any text, the text of a value parses to it |
| JsonDocs.DocRead | server/src/msg_server/jsonxx.cpp:54-350 | The parser reads any text that is laid out as JSON: with space and line comments between the tokens, strings in either quotes with their escapes, numbers as the stream reads them, a comma behind the last element, and nothing for null before a comma; what it gives is the value that the text is laid out for, the last one of several members with a key |
| JsonDocs.BrokenOff | server/src/msg_server/jsonxx.cpp:54-74 | A token that breaks off is put back; behind a comment inside of it the place is lost, but if it goes on there it is taken |
| JsonFixed.InsertAssigns | server/src/msg_server/jsonxx.cpp:240-262 | Assigning to a key of an object keeps the members in order, gives the key the new value and leaves the others |
| JsonStrings.EscapedStringReread | server/src/msg_server/jsonxx.cpp:90-138 | What the string parser makes of an escaped string |
| JsonStrings.StringComesBack | server/src/msg_server/jsonxx.cpp:460-490 | A string survives escaping and parsing if and only if all its characters do; the four hexadecimal digits of other control characters are read as a decimal number |
| JsonStrings.StandardEscapes | server/src/msg_server/jsonxx.cpp:460-490 | The escapes with a letter are those of section 7 of RFC 8259, written and read |
| JsonStrings.OtherCharacters | server/src/msg_server/jsonxx.cpp:460-490 | Other control characters are written with four hexadecimal digits, and every other character as it is |
| JsonReader.InputStream.TakeToken | server/src/msg_server/jsonxx.cpp:54-74 | The token is taken, or space and comments are and the rest is put back |
| JsonReader.InputStream.TryComment | server/src/msg_server/jsonxx.cpp:184-217 | A comment to the end of the line, with the space behind it, or nothing |
| JsonReader.InputStream.TakeString | server/src/msg_server/jsonxx.cpp:76-90 | A string in double or in single quotes |
| JsonReader.InputStream.TakeBody | server/src/msg_server/jsonxx.cpp:90-142 | The characters and escapes up to the delimiter |
| JsonReader.InputStream.TakeNumber | server/src/msg_server/jsonxx.cpp:144-152 | A number, as the stream reads it |
| JsonReader.InputStream.TakeWord | server/src/msg_server/jsonxx.cpp:154-174 | true, false, null, or null before a comma |
| JsonReader.InputStream.TakeValue | server/src/msg_server/jsonxx.cpp:285-323 | The kinds of values, in the order in which they are tried |
| JsonReader.InputStream.TakeArray | server/src/msg_server/jsonxx.cpp:331-350 | The loop of an array |
| JsonReader.InputStream.TakeMembers | server/src/msg_server/jsonxx.cpp:240-262 | The loop of an object, with its ways to end early |
| JsonReader.InputStream.TakeObject | server/src/msg_server/jsonxx.cpp:230-266 | An object |
| Base64.Base64Encode | server/src/base/Base64.cpp:32-65 | The accumulator loop, on a non-empty input, gives the encoding of section 4 of RFC 4648 |
| Base64.Base64Decode | server/src/base/Base64.cpp:67-91 | The accumulator loop gives the decoding, or nothing for an unknown character |
| Base64.LoopIsRfc | server/src/base/Base64.cpp:47-60 | Whatever the accumulator holds, its loop cuts the input into the 24-bit groups of the RFC |
| Base64.RoundTrip | server/src/base/Base64.cpp:32-91 | Decoding what was encoded gives it back, for every input |
| Base64.SkippedDoNotMatter | server/src/base/Base64.cpp:74-78 | Spaces and padding characters do not change the result, wherever they are |
| Aes.DecryptUndoesEncrypt | server/src/base/EncDec.cpp:24-98 | For a block cipher with an inverse, decrypting what was encrypted gives it back, for every input that is not empty and below 2^31 bytes |
| Aes.RoomForLength | server/src/base/EncDec.cpp:30-36 | The length at the end never overlaps the data, for every remainder modulo 16, and with a block less it would |
| Aes.PaddedLayout | server/src/base/EncDec.cpp:30-41 | What is enciphered is the data, zeros, and the length in four bytes, the highest first |
| Aes.Encrypt | server/src/base/EncDec.cpp:24-58 | Error for no input; else base 64 of the enciphered, padded input |
| Aes.Decrypt | server/src/base/EncDec.cpp:60-98 | All four errors, or the data that the length at the end says |
| Aes.CipherBlocks | server/src/base/EncDec.cpp:43-45 | Block by block |
| Md5.Md5Digest | server/src/base/TokenValidator.cpp:56-148 | The digest is that of sections 3.1 to 3.5 of RFC 1321 for inputs below 2^61 bytes, each block being processed once |
| Md5.Pad | server/src/base/TokenValidator.cpp:73-94 | The padding loop and the length in two words give the padding of sections 3.1 and 3.2 |
| Md5.FewestZeros | server/src/base/TokenValidator.cpp:78-79 | The padding is the smallest that leaves room for the length |
| Md5.BitsOfLength | server/src/base/TokenValidator.cpp:89-92 | The two words computed from the length in bytes are the low and high words of the length in bits |
| Md5.ProcessBlock | server/src/base/TokenValidator.cpp:96-136 | The loop over the 64 operations of a block gives section 3.4 |
| Md5.PassIsOperation | server/src/base/TokenValidator.cpp:110-129 | A pass on shifting registers is the operation of the RFC on named registers |
| Md5.TablesAgree | server/src/base/TokenValidator.cpp:17-34 | The word and the shift that the loop computes or looks up are those that the RFC lists for each of the 64 operations |
| Md5.WordReadBack | server/src/base/TokenValidator.cpp:40-54 | Four bytes, low-order first, and a word |
| RouteMaster.MasterAgreesWithScan | server/src/msg_server/RouteServConn.cpp:91-174 | After every run, under a clock that does not go back: the cached master is none exactly when no listed connection is open; otherwise it is listed, open, and as old as the one a full scan would find |
| RouteMaster.ScanFindsOldest | server/src/msg_server/RouteServConn.cpp:96-109 | The scan finds one of the oldest open connections, or none when none is open |
| RouteMaster.WaitAfterFailures | server/src/base/ServInfo.h:55-68 | After the k-th failure in a row the wait is 2^(2 + (k-1) mod 5) ticks, wherever the ticks fall |
| RouteMaster.WaitsThatLong | server/src/base/ServInfo.h:38-53 | An empty entry gets its connection with exactly that many ticks |
| RouteMaster.EntryIsItsEvents | server/src/base/ServInfo.h:38-68 | Along every run of confirmations, closes and ticks an entry of the list is what its own events make of it |
| RouteMaster.WaitOfEveryServer | server/src/base/ServInfo.h:38-68 | After every run the wait of every server is that of its failures since its last confirmation |
| RouteMaster.ReconnectsAfterFailures | server/src/base/ServInfo.h:38-68 | After the k-th failure in a row a server gets a new connection with exactly 2^(2 + (k-1) mod 5) ticks |
| RouteMaster.ObjectsAfter | server/src/msg_server/RouteServConn.cpp:148-174 | A confirmation opens its connection at the time of the clock, a close takes the object away, a tick makes closed ones for the entries that have waited; no other object changes |
| RouteMaster.ScanTakesFirst | server/src/msg_server/RouteServConn.cpp:96-109 | Of several connections that are as old the scan takes the first |
| RouteMaster.MasterStays | server/src/msg_server/RouteServConn.cpp:148-174 | A confirmation changes the master only when there is none, a close only when it is that of the master, and a tick never |
| RouteMaster.RouteServers.UpdateMaster | server/src/msg_server/RouteServConn.cpp:96-122 | The scan loop |
| RouteMaster.RouteServers.Confirmed | server/src/msg_server/RouteServConn.cpp:165-174 | A connection opens; a master is looked for only when there is none |
| RouteMaster.RouteServers.Close | server/src/msg_server/RouteServConn.cpp:148-163 | The entry is emptied, its wait grows, and a lost master is replaced |
| RouteMaster.RouteServers.CheckReconnects | server/src/base/ServInfo.h:38-53 | A tick of the timer for all entries |

## Left out

- HTTP callbacks that fail or pause: every callback returns 0, except that the one after the headers may return 1.
- HttpSplit.SplitIndependence: nothing is said of the callbacks of a run that ends in an error, because a pending mark is not flushed then; struct, errno and offset agree always.
- HttpPipeline.MessageDelivered: lengths and chunk sizes from 2^64-1 up are left out, because the test for wrap-around in the code is incomplete there; parsers that learn from the first bytes whether they read requests or responses are followed up to there (`ReadsAsOne`).
- HttpPipeline.StreamDelivered: an application that answers the end of the headers does so in the same way for all messages of a stream.
- HttpUrl.ParseUrl: at most 65535 bytes, because the offsets of the result have 16 bits; the value of a port at the very end is stated when no digit follows the input in memory, which the conversion reads.
- The HTTP parser's struct is one value that `HttpParser` updates, and the branches of its switch are functions of it; the loops, marks and jumps around them are imperative.
- Users and connections of the message server are entries of maps under their addresses, and not Dafny objects, so that deletion, dangling references and the reuse of an address can be spoken of.
- A data base that gives one login name two ids, or the id 0, is not considered.
- Kick-off flags, the list of messages that wait for an answer, online status, client types and all messages that the handlers send.
- OfflineRuns.RunKeeps: the events of a connection whose task another connection has deleted are not considered, nor is the timer that removes old tasks, nor a second task with the same id.
- TransferTask.OfflineTransferTask.DoRecvData: writes to the file are complete, the received data is at least as long as the block that was asked for (the code reads that many bytes), and the time is a number of at most 128 digits.
- The uploads that are stated are of fewer than 2^31 bytes, because the code multiplies segment numbers as signed integers.
- ConnPool.NobodyStranded: a connection is given back by the thread that got it, or while it is free; the lock is fair to nobody.
- SimpleBuffer.CSimpleBuffer.Write: only contents for which the memory asked for has room (`RoomIff`); `realloc` does not fail.
- ImConn.CImConn.OnRead: whether a handler throws depends on the unit and those handled before; handling a unit does not otherwise close or read the connection itself.
- ImPdu.CImPdu.Set: a unit of at least 16 bytes; the framing accepts shorter ones, and setters would then write behind the buffer. Message bodies are opaque bytes, and serialising one does not fail.
- JsonRoundTrip.ParsePrint: printing and the syntax of numbers are left out; the parser takes any reader of numbers that takes nothing where no number can begin.
- JsonReader.InputStream.TakeToken: at the end of the input inside of a token, and when a token fails behind a comment inside of it, the model says that the stream is lost; what the code does with such a stream afterwards is not modelled.
- Base64.Base64Encode: the empty input is left out, because an assert of the code underflows there.
- The block functions of AES are any pair of which one undoes the other.
- Md5.TablesAgree: the constants of the sine table are taken over, not derived.
- RouteMaster.MasterAgreesWithScan: among connections of the same age the cached one may be another than the first that a scan finds; connecting does not fail at once.
- Sockets, timers, threads' scheduling, configuration, logging, XML output and the push service.

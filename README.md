# SMDP file-catalog protocol in Dafny

This project models the protocol engine of a small file-catalog service.
A client connects to a server, logs in with USER and PASS, lists the
catalog, and downloads files by id (FILE) or at random (RANDOM). Both ends
speak SMDP. The wire layer has twelve 4-byte message tags, 4-byte unsigned
integers, and strings sent as a length followed by that many bytes with no
terminator.

There are four modules:

- `Smdp` (smdp.dfy) is the wire layer of `smdp.h`.
  - The socket is a `Channel` object. `input` holds the bytes not yet read; `output` holds everything written so far.
  - `ReadInt`, `ReadStr`, `Read`, `WriteInt`, `WriteStr` and `Write` are methods on it.
  - Each method is proved against a pure parser (`TakeInt`, `TakeStr`, `TakeBytes`) or an encoder (`EncodeU32`, `EncodeStr`).
  - `ReadStr` writes into a caller's array: the string, then a NUL at `buf[len]`.
  - A declared length that leaves no room for that NUL is the `Overflow` fault.
  - A read that runs out of bytes is the `Short` fault. Both faults model the abort through `error()`.
- `Server` (server.dfy) is `server.c`.
  - Class `Connection` holds the globals `authenticated`, `username`, `password` and `buf`. The name buffers are arrays.
  - Its methods are the handlers `do_echo` … `do_random`, `send_file` with its chunk loop, the switch of `handle` (`Serve`), and the dispatch loop (`Handle`).
  - Each handler is proved against a pure step function. `Run` states what a whole session sends.
  - The SQLite database and the disk are a `Catalog` value:
    - `users` maps a user name to a password;
    - `files` holds the rows of the `files` table in table order;
    - `disk` maps a path to the file's contents.
  - `ORDER BY RANDOM()` is an argument `pick`.
- `Client` (client.dfy) is `client.c`.
  - Class `Terminal` holds `running`, the shared `buf`, what has been printed, and the local files.
  - Its methods are `do_command` with its `strtok` tokeniser and `atoi`, the handlers, `receive_file` with its chunk loop, and the loop of `main` that ends with CLOSE.
  - Each method is proved against a pure `…Turn` function or `Session`.
- `Protocol` (protocol.dfy) composes the two ends. For each request it states what the server answers and what the client makes of that answer.
  - ECHO, USER, PASS, LIST and FILE agree. The client consumes exactly the server's reply and ends with the intended result.
  - RANDOM does not agree (see Findings).

Byte order is fixed to little-endian. Integers are unbounded in Dafny. The
C conversions are written out:

- `Wrap32` is the conversion of an `int` to `uint32_t`.
- `ToInt32` is the conversion of a `uint32_t` to `int`.

The pure functions `EchoStep`, `UserStep`, `PassStep`, `FileStep` (server)
and `EchoTurn`, `ListTurn`, `UserTurn`, `PassTurn`, `FetchTurn` (client)
transcribe the handlers. What they mean for a request the other end
actually sends is proved in `Protocol`.

UPLOAD has a tag but no case in the server's switch, so it ends the
session like any unknown value. In two places the model departs from the
code, both listed under "Left out":

- A string length that does not fit the buffer stops the model with `Overflow`. The code only prints a warning and writes past the buffer.
- A read that delivers fewer bytes than asked is the `Short` abort. The code aborts only on a negative count.

## Model

The methods are proved against pure definitions that have no row of their own: `Client.Command` behind `DoCommand`, `Client.Session` behind `RunSession`, `Client.Atoi` behind the id that `DoCommand` passes to `DoDownload`, `Server.Run` behind `Handle`, `Server.ListReply`, `Server.RowFrame` and `Server.RowFrames` behind `DoList`, and `Smdp.EncodeStr` behind `WriteStr`.

| member | source | states |
|---|---|---|
| Smdp.Code | smdp.h:9-47 | every tag's value is below 12 |
| Smdp.TagOf | smdp.h:9-47 | a received value names a tag exactly when it is below 12 |
| Smdp.TagOfCode | smdp.h:9-47 | decoding a tag's value gives back that tag |
| Smdp.CodeOfTagOf | smdp.h:9-47 | every value 0..11 is the value of the tag it decodes to |
| Smdp.CodesDistinct | smdp.h:9-47 | two tags have the same value exactly when they are the same tag |
| Smdp.Wrap32 | smdp.h:82 | passing an `int` as `uint32_t` keeps values in range and adds 2^32 to negative 32-bit values |
| Smdp.ToInt32 | smdp.h:66 | storing a `uint32_t` in an `int` gives a value in the 32-bit signed range that converts back to the same `uint32_t` |
| Smdp.ToInt32Wrap32 | server.c:275 | an id in the signed 32-bit range survives the trip to `uint32_t` and back |
| Smdp.EncodeU32 | smdp.h:82-87 | an integer frame is exactly 4 bytes |
| Smdp.DecodeEncode | smdp.h:54-63 | decoding the 4 bytes written for a value gives that value |
| Smdp.EncodeDecode | smdp.h:54-63 | encoding the value read from any 4 bytes gives those bytes |
| Smdp.EncodeU32Injective | smdp.h:82-87 | different values are written as different frames |
| Smdp.CString | smdp.h:90 | what `strlen` and `%s` see is a NUL-free prefix that ends at the first NUL |
| Smdp.CStringOfNulFree | smdp.h:90 | a NUL-free string is its own C string |
| Smdp.CStringTerminated | smdp.h:72-73 | a buffer holding a string, then a NUL, then anything, reads as that string |
| Smdp.TakeInt | smdp.h:54-63 | a read of an integer succeeds exactly when 4 bytes are there; the value is what those bytes encode; the rest follows them |
| Smdp.TakeStr | smdp.h:65-80 | a read of a string succeeds exactly when the length fits the buffer and that many bytes follow; the result is those bytes; a length that does not fit is the overflow fault |
| Smdp.TakeBytes | client.c:97-101 | a read of n bytes succeeds exactly when n bytes are there, and splits the input at n |
| Smdp.EncodeStrShape | smdp.h:89-99 | a string frame is the 4-byte `strlen` followed by exactly those bytes, with no terminator |
| Smdp.IntRoundTrip | smdp.h:54-87 | reading back what an integer write appended gives the value and consumes exactly 4 bytes |
| Smdp.StrRoundTrip | smdp.h:65-99 | reading back a string write of a NUL-free string shorter than the buffer gives the string and consumes exactly its frame |
| Smdp.WarningMissesNegativeLength | smdp.h:66-70 | as written, the signed check gives no warning for a length of 2^31, yet that length does not fit |
| Smdp.FitsBufferInBounds | smdp.h:68-73 | the unsigned check admits exactly the lengths for which the store `buf[len]` is inside the buffer |
| Smdp.Clear | server.c:77 | `memset` leaves every byte of the buffer zero |
| Smdp.Channel.ReadInt | smdp.h:54-63 | consumes the input exactly as `TakeInt` says, or reports its fault |
| Smdp.Channel.ReadStr | smdp.h:65-80 | on success, writes the string to `buf[0..n)` and a NUL to `buf[n]`, leaves the rest of the buffer alone, and returns `n`; on a fault, the buffer is unchanged |
| Smdp.Channel.Read | client.c:97-101 | delivers what `TakeBytes` delivers, or its fault |
| Smdp.Channel.WriteInt | smdp.h:82-87 | appends exactly the 4-byte frame |
| Smdp.Channel.WriteStr | smdp.h:89-99 | appends exactly the string frame of the C string |
| Smdp.Channel.Write | server.c:261 | appends exactly the given bytes |
| Server.Decimal | server.c:98 | the text of a number's column is a nonempty run of decimal digits |
| Server.IntText | server.c:98 | the text of an integer column has no NUL |
| Server.Lookup | server.c:289-303 | finds a row with the asked id exactly when the table has one |
| Server.FileReply | server.c:223-271 | a path not on disk gives NOFILE alone; otherwise, for a file under 4 GiB, FILE, the size, then exactly the file's bytes |
| Server.RandomReply | server.c:318-358 | DENY when not authenticated; NOFILE on an empty table; otherwise a row's bare id followed by what `send_file` writes |
| Server.Dispatch | server.c:420-449 | a handler only consumes input: what is left after it is never longer than what it was given |
| Server.Request | server.c:405-449 | each pass of the loop that goes on consumes the 4-byte tag and never gives input back, so the loop ends |
| Server.CloseEndsSession | server.c:409-415 | CLOSE ends the loop and nothing is sent |
| Server.UnservedTagsEndSession | server.c:420-448 | a value ends the session as an invalid type exactly when it is not ECHO, LIST, USER, PASS, FILE or RANDOM |
| Server.UploadEndsSession | server.c:445-448 | UPLOAD ends the session |
| Server.OnlyPassAuthenticates | server.c:184-202 | a request other than PASS never changes `authenticated` |
| Server.FileDeniedWhenUnauthenticated | server.c:275-286 | before a matching PASS, FILE consumes its id and gets DENY alone; the session is unchanged |
| Server.RandomDeniedWhenUnauthenticated | server.c:324-328 | before a matching PASS, RANDOM gets DENY alone |
| Server.NeverAuthenticatedWithoutUsers | server.c:199-202 | with no users, a session that starts unauthenticated is never authenticated |
| Server.RandomOnEmptyCatalog | server.c:353-357 | RANDOM on an empty table gives NOFILE, whatever the random choice |
| Server.RowFramesCons | server.c:139 | the ROW frames of a table are the first row's frame, then the other rows' frames |
| Server.Connection.DoEcho | server.c:75-83 | writes exactly the reply `EchoStep` gives and consumes what it consumes; a read fault sends nothing |
| Server.Connection.ListCallback | server.c:85-104 | writes ROW and the three columns as strings |
| Server.Connection.ExecList | server.c:139 | writes one ROW frame per row, in table order |
| Server.Connection.DoList | server.c:106-146 | writes LIST, the row count, then every row's frame |
| Server.Connection.DoUser | server.c:148-157 | the session globals become exactly `UserStep`'s; nothing is written |
| Server.Connection.DoPass | server.c:159-219 | the session globals and the reply become exactly `PassStep`'s |
| Server.Connection.SendFile | server.c:223-271 | the chunk loop sends exactly `len` bytes of the file, after FILE and the size; a missing path sends NOFILE alone |
| Server.Connection.DoFile | server.c:273-316 | writes exactly the reply `FileStep` gives and consumes the id |
| Server.Connection.DoRandom | server.c:318-358 | writes exactly `RandomReply` for the choice |
| Server.Connection.Serve | server.c:420-449 | does what `Dispatch` says; a value with no case changes nothing |
| Server.Connection.Handle | server.c:360-455 | the loop sends exactly what `Run` says and ends for the same reason |
| Client.Word | client.c:220 | a word is the longest delimiter-free prefix |
| Client.NextToken | client.c:220-236 | `strtok` returns NULL exactly when only delimiters are left; otherwise it returns a nonempty word and goes on after it |
| Client.TokenOfWord | client.c:220-236 | a word followed by a delimiter is tokenised as that word, and the text after the delimiter is what is left |
| Client.AtoiOfDigits | client.c:232 | `atoi` of a run of digits, with or without a minus sign, is its value |
| Client.ParseRows | client.c:50-64 | n ROW frames give n rows |
| Client.RowCount | client.c:47-50 | the row loop runs the count's times when it is below 2^31, and not at all when the count reads as negative |
| Client.ReceiveBody | client.c:86-110 | `receive_file` succeeds exactly when the size and that many bytes are there, and consumes exactly them |
| Client.ParseFetch | client.c:116-137 | the reply is read as denied exactly for DENY and as no file exactly for NOFILE; any other first value is taken for FILE and the next value for the size |
| Client.FetchTurn | client.c:112-138 | the command completes exactly when the reply parses and, if a body comes, a path was given; it consumes exactly the reply; a local file changes only when a body was received |
| Client.UnknownCommandSendsNothing | client.c:240-242 | any other first word is reported as invalid; nothing is sent or read |
| Client.ExitCommand | client.c:238-239 | any line whose first word is "exit" only clears `running`: nothing is sent or read |
| Client.ExitLine | client.c:220-239 | the typed line "exit" is tokenised to that word and only clears `running` |
| Client.LeadingDelimsSkipped | client.c:220 | `strtok` skips spaces and newlines in front of the first word |
| Client.SessionEndsWithClose | client.c:261-273 | every session that `error()` does not cut short sends CLOSE last, after a crash too |
| Client.Terminal.ReadShown | client.c:53-55 | reads a string into the zeroed buffer and yields what `%s` prints |
| Client.Terminal.DoEcho | client.c:31-41 | sends, shows and consumes exactly what `EchoTurn` says |
| Client.Terminal.ReadRow | client.c:51-63 | reads one ROW frame as `ParseRow` says |
| Client.Terminal.ReadRows | client.c:49-64 | the row loop prints exactly the rows `ParseRows` reads |
| Client.Terminal.DoList | client.c:43-65 | sends, prints and consumes exactly what `ListTurn` says |
| Client.Terminal.DoUser | client.c:67-70 | sends exactly what `UserTurn` says, and reports the crash of a missing name |
| Client.Terminal.DoPass | client.c:72-83 | sends, shows and consumes exactly what `PassTurn` says |
| Client.Terminal.ReceiveFile | client.c:86-110 | the local file becomes exactly the body `ReceiveBody` reads |
| Client.Terminal.ReceiveChunks | client.c:95-106 | the chunk loop appends exactly `len` input bytes to the file |
| Client.Terminal.AwaitFile | client.c:116-124 | handles the reply as `FetchTurn` says |
| Client.Terminal.DoDownload | client.c:112-125 | sends FILE and the id, then does what `FetchTurn` says |
| Client.Terminal.DoRandom | client.c:127-138 | sends RANDOM, then does what `FetchTurn` says |
| Client.Terminal.DoCommand | client.c:217-243 | does what `Command` says for the line |
| Client.Terminal.RunSession | client.c:261-275 | the loop of `main` and the final CLOSE, or the CLOSE of the signal handler after a crash, send exactly what `Session` says |
| Protocol.ShownRoundTrip | client.c:53-55 | a string frame is read back into the client's buffer as the C string sent |
| Protocol.EchoServed | server.c:75-83 | the server answers the client's ECHO with ECHO and the same string |
| Protocol.EchoRead | client.c:36-40 | the client reads that answer back as the C string it sent |
| Protocol.EchoExchange | client.c:31-41 | ECHO round trip: the client shows what it sent and consumes exactly the reply |
| Protocol.UserServed | server.c:148-157 | the server stores the client's USER name and sends nothing |
| Protocol.UserExchange | client.c:67-70 | USER on both ends: no reply is sent and none is read |
| Protocol.PassServed | server.c:184-218 | the server authenticates on the client's PASS exactly when the password matches |
| Protocol.PassExchange | client.c:72-83 | the client reports a login exactly when the server authenticated, and consumes exactly the reply |
| Protocol.RowExchange | server.c:96-100 | one ROW frame is read back as the row's three columns |
| Protocol.RowsExchange | client.c:50-64 | the ROW frames of a table are read back as its rows, in order |
| Protocol.ListServed | server.c:425-427 | LIST gets the LIST reply |
| Protocol.ListRead | client.c:43-65 | the whole LIST reply is read back as the table's rows |
| Protocol.ListExchange | server.c:134-139 | LIST on both ends: the client prints exactly the table and consumes exactly the reply |
| Protocol.FileReplyExchange | server.c:234-246 | what `send_file` writes is read back as the file, or as no file |
| Protocol.FileExchange | client.c:112-125 | FILE on both ends: the server looks up the id the client sent; the client prints "Access denied" or "No such file", or saves the file at the given path, as intended, and consumes exactly the reply |
| Protocol.DownloadExchange | client.c:230-234 | typing `download` with a listed id ends, through the server, as intended, with exactly the reply consumed |
| Protocol.DigitsOfDecimal | client.c:232 | `atoi` reads a number's digits back as the number |
| Protocol.AtoiOfIntText | client.c:232 | `atoi` reads back the text of an integer column |
| Protocol.DownloadLineTokens | client.c:230-233 | `download <id> <path>` is tokenised into the command word, the id's text and the path |
| Protocol.DownloadOfListedId | client.c:230-234 | typing back a listed id sends FILE with that id |
| Protocol.RandomRequest | server.c:441-443 | RANDOM gets `RandomReply` |
| Protocol.RandomMisread | server.c:351-352 | as written, the client reads the RANDOM reply as intended exactly when no file row is sent |
| Protocol.RandomRowMisread | client.c:130-136 | when a row is sent, the client ends with another result, or stops at another place in the stream |
| Protocol.RandomIdFiveReadAsDenied | client.c:131-132 | a chosen row with id 5 is shown as "Access denied" to an authenticated user, and the file stays unread in the stream |
| Protocol.RandomIdNineReadAsMissing | client.c:133-134 | a chosen row with id 9 is shown as "No such file", and the file stays unread in the stream |
| Protocol.FixedRandomReply | server.c:344-357 | the corrected reply is the as-written reply without the bare id |
| Protocol.FixedRandomExchange | server.c:344-357 | the client reads the corrected RANDOM reply as intended, prints the report or saves the chosen file at the given path, and consumes exactly that reply |

## Left out

- Socket setup, `accept`, `fork`, `select` with its 120-second idle timeout, and `close` are left out. They are operating-system I/O, process concurrency and wall-clock time. A session that times out is modelled as one whose input runs out.
- SQLite is replaced by the `Catalog` value, and `dberror` is left out. Failures of the database are foreign code.
- The `argc < 3` check in `list_callback` is left out. The `files` table always has three columns.
- `stat`, `fopen`, `fread`, `fwrite` and `fclose` become maps from path to contents.
  - A failing `fopen` on the client is left out.
  - A `fopen(NULL)` is the `Crash` outcome.
  - `send_file` takes the file's contents from the same map that `stat` consults.
- Write failures and the duplicate error check of `smdp_write_str` are left out. Writes always succeed, and the second check repeats the first `n`.
- Short reads are modelled as the `error()` abort (`Short`). In the code, `read` returning fewer bytes than asked (0 at the end of the stream) is not an error: only a negative count aborts, and the program goes on with whatever the buffer held.
- `signal_handler` is modelled only for SIGSEGV, the `Crash` outcome: it sends CLOSE. Then the fault recurs, the handler's second write fails on the closed socket, and `error()` ends the process. The handler on SIGINT, SIGQUIT and SIGTERM is left out, because those are user interrupts that arrive at any time.
- All server logging to stdout and stderr is left out: the verbose `printf`s, the unconditional `printf` at server.c:349 and the `stderr` messages at server.c:238, 355, 401 and 446. `parse_opts` and `help_message` are left out too. The client's printed messages are kept as `Note`s.
- Client.FetchTurn: with no path, the `Crash` is taken before the size is read. The code reads the size and, unless it is 0, the first block before it writes to the NULL stream. For a size of 0 the loop at client.c:95 does not run, and the crash is in `fclose(NULL)` at client.c:109. Either way what the client sends is the same.
- The seeding scripts add_directory.py and add_user.py are not part of this model.
- Client `do_echo` is modelled, but `do_command` never calls it. Its line is a parameter, limited to 1022 bytes as `fgets(buf, 1023, stdin)` reads.
- Standard input is a sequence of lines as `fgets` stores them. These are left out:
  - the 255-byte limit of `fgets` on `line`;
  - the end-of-file case. There `fgets` leaves the line as `strtok` cut it, and `do_command` runs once more on what is left. The model instead ends the loop when the lines run out.
- Integer columns are taken as Dafny integers.
  - `sqlite3_column_int` truncation of 64-bit ids is not modelled.
  - `atoi` overflow beyond `int` is not modelled.
  - The id the client sends goes through `Wrap32`.
- Server.Connection.Handle: after a read fault (the `error()` abort) the session globals are not stated; only what was sent and why the loop ended are. The process exits at that point.
- Server.Connection.Serve: after a read fault the session globals are not stated, for the same reason.
- Client.Terminal.RunSession: after an early end (a crash or an abort) the client's globals are not stated; only what was sent and why it ended are.
- Client.Terminal.DoCommand: after an early end the globals and the unread input are not stated. The same holds for the handlers it calls.
- Smdp.Channel.ReadStr: after a fault the unread input is not stated, because the program exits. The same holds for `ReadInt` and `Read`.
- Smdp.TakeStr: a declared length that does not fit stops the model with `Overflow`. The code instead writes past the buffer, which is undefined behaviour.
- Server.RandomReply and `Server.Connection.DoRandom` keep the bare id as written, so the composition shows the mismatch. The corrected reply is `Protocol.FixedRandomReply`.

## Findings

| source | as written | input that shows it | evidently intended | confidence | as-written member | corrected member |
|---|---|---|---|---|---|---|
| server.c:351 | `do_random` writes the chosen row's id as a bare `uint32_t`, then what `send_file` writes. `do_random` of the client takes that id for the reply tag, and the value that follows for the file size. | An authenticated RANDOM whose chosen row has id 5: the client prints "Access denied". With id 9 it prints "No such file". With any other id it takes the next value for the size: FILE (7), or NOFILE (9) for a path not on disk. It then saves other bytes or stops at another place in the stream, as `Protocol.RandomRowMisread` states. | The comment at server.c:345 means to send the id ahead of what `send_file` writes, but the client's `do_random` (client.c:127-138) never reads an id. Any bare id sent first collides with DENY (5) and NOFILE (9), as `Protocol.RandomIdFiveReadAsDenied` and `Protocol.RandomIdNineReadAsMissing` show. The corrected reply therefore drops the id, so RANDOM answers like FILE: DENY, NOFILE, or FILE, the size and the bytes. This is one chosen fix, not the evident intent on its own. `Protocol.FixedRandomExchange` proves that the client then reads the reply as intended. | not executed | Protocol.RandomMisread | Protocol.FixedRandomReply |
| smdp.h:68 | `smdp_read_str` keeps the length in an `int`, so `len >= buflen` is false for lengths of 2^31 and above. There is no warning, and `buf[len] = 0` writes far outside the buffer. | A string frame declaring length 0x80000000 for a 1024-byte buffer. | The check is made on the unsigned length, so every length that does not fit is caught. `Smdp.FitsBufferInBounds` proves that this check admits exactly the in-bounds lengths. | not executed | Smdp.WarningMissesNegativeLength | Smdp.FitsBufferInBounds |

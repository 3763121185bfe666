# vsftpd 2.3.4: a verified model of its protocols and engines

This project models the parts of vsftpd that hold most of its state and arithmetic, and proves what
they promise. Check it with `dafny verify dfyconfig.toml` (Dafny 4.11).

The daemon is a family of processes. A standalone listener accepts connections and forks a child for
each. A session splits into a privileged parent, an unprivileged child that speaks FTP, and for
encrypted sessions a slave that holds the SSL objects; they talk over socket pairs that carry bytes
and descriptors. The child runs a command loop, moves files, and defers signals to points where it is
safe to handle them.

| module | what it models |
|---|---|
| `Bytes` | bytes, C ints, the shared vocabulary |
| `PrivSock`, `PrivOps`, `TwoProcess` | the wire format between the processes, what each request does, and the two processes with their streams as a state machine over single-item steps, refined to the one-process session |
| `AsyncAbor` | the same with calls that a signal handler makes while another is outstanding |
| `PrivParent`, `SslSlave` | the two helpers' loops as objects, and the passive-port search |
| `PrivChannel`, `Stubs` | the socket calls over a stream object and the caller's stubs as they are written, each against the direct call |
| `Hash`, `Standalone` | the bucket-chain hash table on the heap and the listener's accounting on two of them |
| `Strings`, `FtpCmdIo`, `NetStr` | the growable string, reply escaping and command-line clean-up, the line reader |
| `Ls`, `Glob`, `Braces` | the file-name matcher, and what its answers mean for a declared language of filters |
| `Ascii`, `DataIo` | the ASCII codec in place over buffers, and the transfer loops over devices that fragment, fail and fill up |
| `Session`, `SessionRuns`, `SessionLaws` | the post-login command loop with its modes, data connection and log entry, its properties over runs, and what its settings, log lines and deaths come from |
| `Signals`, `Bandwidth`, `SecBuf` | the deferred-signal dispatcher, the bandwidth limiter, the guard-page buffers |

What the outside decides (bytes that arrive, errors, new descriptors and pids, clocks, who connects)
is a parameter, and every theorem is for all its values. Fragmentation is a field of the devices: the
number of bytes each read, peek or write handles. A `bug()` guard of the C code is an `assert false`
in its place, so verification is the proof that it cannot fire.

## Where the code and what one would expect part ways

Each of these is proved, with the exact condition.

- The matcher is sound, but a star takes the leftmost hit: `*a` rejects `aba`
  (`Glob.StarAMissesAba`). A filter without braces is matched exactly just when it fits the budget
  and, if it has a star, ends in one and has no literal byte directly behind a `?` to the right of
  the first (`Glob.BracelessExact`).
- A brace list ends at its first empty piece: `{,a}` rejects `a` (`Braces.EmptyPieceMissesA`). Without
  empty pieces every piece is tried (`Braces.ListTriesAll`), and without stars the filter is exact
  within the budget (`Braces.StarlessExact`). A star directly before a list does nothing
  (`Braces.StarLostBeforeList`).
- After EPSV ALL every other way to set up a data connection should be refused (section 4 of RFC
  2428); EPRT still works (`SessionRuns.EpsvAllLeavesEprt`).
- The SSL slave answers a read with up to 65536 bytes whatever its caller asked for, so a smaller
  `trans_chunk_size` makes the caller's "recv_len bigger than buffer" reachable
  (`PrivSock.ReadBufferBigEnough`).
- A TLS negotiation that fails on a data connection kills the SSL slave and with it the session, or
  the session itself when it has no slave; the slave goes on just when none fails
  (`SslSlave.SlaveKeepsGoing`, `Session.Session.PostMarkConnect`).
- With `async_abor_enable` and an SSL slave the SIGURG handler asks for a command line on the stream on
  which an interrupted stub waits: file data can be taken for the command and the command for file
  data (`AsyncAbor.DataForCommand`). Without both, every stub gets its own answer
  (`AsyncAbor.OwnAnswersExact`).
- The listener closes the client socket between fork and entering the new pid. If that close is
  interrupted and the new child is among the dead, the SIGCHLD handler looks up a pid that is not
  there (`Standalone.CloseWindow`).
- The bandwidth limit is kept to within one byte a second (`Bandwidth.LimitHolds`), but not exactly
  (`Bandwidth.LimitAloneExceeded`). With exact sleeps a call keeps it just when its bytes were
  within the limit before the pause or no part of a byte a second was cut off their rate
  (`Bandwidth.CallKeepsLimit`); any sequence of such calls keeps it (`Bandwidth.LimitKept`).
- Reply escaping loses NUL, which LF is mapped to (`FtpCmdIo.EscapeRoundTrip`), and a name is echoed
  back unchanged only without byte 255, NUL and trailing CRs (`FtpCmdIo.EchoedName`).
- `str_netfd_alloc` returns the terminator's offset within the last piece read, which is the length of
  the line just when the terminator is in the first piece (`NetStr.ReadLine`, `NetStr.ShortCount`);
  callers use its sign only.
- `str_reserve` writes its terminator at the reserved place even when the string is longer
  (`Strings.MyStr.Reserve`).
- With `port_promiscuous` a client that can have data connections can bring the process down with a
  reserved port (`SessionRuns.IllegalPortReachable`).
- `vsf_secbuf_free` leaves the caller's pointer as it is. That pointer may be freed again just when a
  later allocation has mapped its base anew and nothing has released it since
  (`SecBuf.StalePointer`).

## Model

| member | source | states |
|---|---|---|
| `Bytes.IntRoundTrip` | targets/vsftpd/2.3.4/privsock.c:193-213 | an int sent as its four memory bytes is read back as the int sent, negative values included |
| `PrivSock.RequestFrames` | targets/vsftpd/2.3.4/privsock.c:77-213 | of every request within the string limit, each proper prefix leaves the server waiting for more and the whole is read as exactly that request: the reader stops neither early nor late |
| `PrivSock.ReplyFrames` | targets/vsftpd/2.3.4/twoprocess.c:207-280 | the same for every stub reading every reply it may get: result, descriptor, int, or int and string |
| `PrivSock.FdsComeLast` | targets/vsftpd/2.3.4/privsock.c:181-191 | a descriptor travels only on the last item of a request or reply, so the bytes before it are plain |
| `PrivSock.OversizeRefused` | targets/vsftpd/2.3.4/privsock.c:152-169 | the string reader dies on the length alone exactly when the string is longer than VSFTP_PRIVSOCK_MAXSTR |
| `PrivSock.ReadAnswerFits` | targets/vsftpd/2.3.4/privsock.c:111-126 | an SSL read reply is received by a caller with room for it and hits "recv_len bigger than buffer" for any other |
| `PrivSock.ReadBufferBigEnough` | targets/vsftpd/2.3.4/sslslave.c:72-78 | that guard is unreachable for every possible read exactly when the caller reads with a full 65536-byte buffer; a smaller trans_chunk_size makes it reachable |
| `PrivOps.ServeIsCall` | targets/vsftpd/2.3.4/postprivparent.c:115-173 | each handler of the parent and the slave dies exactly when the direct call would, a TLS negotiation that fails and a control connection that ends included, and otherwise sends what the direct call returns and moves the owned fields the same way |
| `PrivOps.DataSockAgrees` | targets/vsftpd/2.3.4/privops.c:34-93 | the active-mode socket is the same through the parent and directly, for every state of the network, exactly when the PORT address is the control peer or the port is reserved |
| `PrivOps.AcceptIs` | targets/vsftpd/2.3.4/privops.c:181-209 | a passive connection: -1 exactly when nobody came or nothing listens, -2 exactly when a stranger came and strangers are not welcome, otherwise the new descriptor, which the session then holds |
| `PrivOps.DataSockIs` | targets/vsftpd/2.3.4/privops.c:34-93 | an active connection: fatal exactly for a reserved port or a failed bind, -1 exactly when the address asked for refuses, otherwise the new descriptor |
| `PrivOps.ListenIs` | targets/vsftpd/2.3.4/privops.c:95-179 | listening dies exactly when no port is bound, and otherwise holds one new socket and says its port; it is then active, and a cleanup gives back what was there |
| `PrivOps.TlsIs` | targets/vsftpd/2.3.4/ssl.c:395-455 | TLS on the data connection comes up exactly when it was down, the negotiation succeeds and nothing refuses it; reads and writes need it up; a close takes it down and is bad only if a shutdown failed |
| `PrivOps.ControlIs` | targets/vsftpd/2.3.4/readwrite.c:126-157 | a command line is read unless the connection has ended, a reply gets the result of its write, an upload is chowned or the process dies; nothing else changes |
| `TwoProcess.StepRefines` | targets/vsftpd/2.3.4/twoprocess.c:207-280 | every step of either process, under any interleaving and any stream capacity, keeps the streams equal to the unread part of the one outstanding message and is a step or none of the one-process session |
| `TwoProcess.RunInv` | targets/vsftpd/2.3.4/postprivparent.c:45-79 | the framing invariant holds in every state of every run |
| `TwoProcess.RunsRefine` | targets/vsftpd/2.3.4/oneprocess.c:128-163 | every run of the two processes, the calls being those of the main program, maps to a run of the one-process session with the same calls, results and descriptors |
| `TwoProcess.QuietBetweenCalls` | targets/vsftpd/2.3.4/twoprocess.c:226-267 | in every run from the start both streams are empty whenever no call is outstanding |
| `TwoProcess.CompletedCall` | targets/vsftpd/2.3.4/twoprocess.c:207-280 | a stub that has returned has returned what the direct call returns, with the fields and descriptors the direct call leaves, whatever the schedule |
| `TwoProcess.NeverStuck` | targets/vsftpd/2.3.4/postprivparent.c:34-79 | while a call is outstanding one of the two processes can move, even if a stream holds a single byte |
| `TwoProcess.StepsMakeProgress` | targets/vsftpd/2.3.4/postprivparent.c:34-79 | every step but a new call strictly decreases the work left |
| `TwoProcess.CallsEnd` | targets/vsftpd/2.3.4/postprivparent.c:34-79 | no schedule goes on for ever without a new call, so every call returns or the session goes down |
| `AsyncAbor.OwnAnswersExact` | targets/vsftpd/2.3.4/postlogin.c:1356-1396 | with calls by the SIGURG handler at any point of an outstanding call: every stub gets the answer to its own request in every run if and only if it is not the case that asynchronous aborts are enabled and there is an SSL slave |
| `AsyncAbor.UninterruptedOwn` | targets/vsftpd/2.3.4/sysutil.c:360-391 | in every run in which no handler makes a call, each stub that has returned returned the answer the server gave to its own request |
| `AsyncAbor.DataForCommand` | targets/vsftpd/2.3.4/readwrite.c:79-139 | the failing run, for all file data and any command line: the handler that interrupts a read is given the data for its command line, and the read the command line for its data |
| `PrivChannel.IntFirst` | targets/vsftpd/2.3.4/privsock.c:193-213 | what is read first of an int and anything after it is the int, and the rest is left |
| `PrivChannel.StrFirst` | targets/vsftpd/2.3.4/privsock.c:87-126 | the same for a string or buffer with its length |
| `PrivChannel.Channel.SendStr` | targets/vsftpd/2.3.4/privsock.c:87-109 | puts the length and the bytes on the stream behind what is there; for an empty string the length alone |
| `PrivChannel.Channel.GetInt` | targets/vsftpd/2.3.4/privsock.c:203-213 | takes four bytes and decodes them; dies when the far end has closed before |
| `PrivChannel.Channel.GetStr` | targets/vsftpd/2.3.4/privsock.c:152-169 | takes a length and that many bytes; dies on a length over the limit or an early end |
| `Stubs.GetRequest` | targets/vsftpd/2.3.4/postprivparent.c:45-79 | the parent reads back exactly the request sent and leaves nothing on the stream |
| `Stubs.Child.ParentTurn` | targets/vsftpd/2.3.4/postprivparent.c:45-79 | with a request on the way up, the parent's turn ends with exactly the specified reply on the way down, its copy of a passed descriptor closed, or in its death |
| `Stubs.Child.PasvCleanup` | targets/vsftpd/2.3.4/twoprocess.c:226-236 | the parent no longer listens, its descriptor is closed, both streams are empty |
| `Stubs.Child.PasvActive` | targets/vsftpd/2.3.4/twoprocess.c:238-243 | 1 exactly when the parent listens, else 0; changes nothing, both streams empty |
| `Stubs.Child.Listen` | targets/vsftpd/2.3.4/twoprocess.c:245-250 | dies exactly when no port is bound; otherwise returns that port and leaves the parent listening on the new descriptor, both streams empty |
| `Stubs.Child.GetPasvFd` | targets/vsftpd/2.3.4/twoprocess.c:252-267 | -1 exactly when nobody came or nothing listens, -2 exactly when a stranger came and strangers are not welcome, otherwise the connection; the fatal branches are unreachable, both streams empty |
| `Stubs.Child.GetPrivDataSock` | targets/vsftpd/2.3.4/twoprocess.c:207-224 | for an address that is the control peer's: dies exactly on a reserved port or a failed bind, -1 exactly when that address refuses, otherwise the socket; both streams empty |
| `Stubs.Child.ChownUpload` | targets/vsftpd/2.3.4/twoprocess.c:269-280 | lives exactly when the chown is allowed; the parent's copy of the descriptor is closed |
| `Stubs.GetSlaveRequest` | targets/vsftpd/2.3.4/sslslave.c:32-107 | the slave reads back exactly the request sent and leaves nothing on the stream |
| `Stubs.Consumer.SlaveTurn` | targets/vsftpd/2.3.4/sslslave.c:32-110 | with a request on the way up, the slave's turn ends with exactly the specified reply on the way down, or in its death, as on a TLS negotiation that fails |
| `Stubs.Consumer.ReadData` | targets/vsftpd/2.3.4/readwrite.c:79-91 | with no call by a signal handler in between: lives exactly when there is an SSL object and the bytes read fit the caller's buffer, and then returns the result of the read and its bytes |
| `Stubs.Consumer.WriteData` | targets/vsftpd/2.3.4/readwrite.c:102-115 | lives exactly when there is an SSL object; returns the result of the write |
| `Stubs.Consumer.WriteUserResp` | targets/vsftpd/2.3.4/readwrite.c:62-67 | returns the result of the write on the control connection and changes nothing |
| `Stubs.Consumer.GetLine` | targets/vsftpd/2.3.4/readwrite.c:126-139 | lives exactly when the control connection has not ended; returns the slave's result and, if it is not an error, its line |
| `Stubs.Consumer.Handshake` | targets/vsftpd/2.3.4/ftpdataio.c:159-169 | lives exactly when the slave is clean and the TLS negotiation does not fail; slave and session then agree on whether there is an encrypted data connection |
| `Stubs.Consumer.Close` | targets/vsftpd/2.3.4/ftpdataio.c:67-76 | leaves the slave clean from any state; bad only if a shutdown failed |
| `PrivParent.PrivopPasvListen` | targets/vsftpd/2.3.4/privops.c:115-179 | of at most nine attempts the first not told to retry decides: there is a port exactly when that one is bound, and it is the scaled one; for tunables with 1024 < min <= max < 65535 it lies between them, and each tunable that makes sense by itself binds by itself |
| `PrivParent.Parent.CmdProcessPasvListen` | targets/vsftpd/2.3.4/postprivparent.c:153-158 | the parent lives exactly when the deciding attempt succeeds; it then listens, and the port it answers is the scaled one and lies between the tunables |
| `PrivParent.ScaledInRange` | targets/vsftpd/2.3.4/privops.c:148-154 | the scaled random draw lies in the port range |
| `PrivParent.ScaledInOrder` | targets/vsftpd/2.3.4/privops.c:148-154 | the lowest draw gives the lowest port, the highest the highest, a higher draw no lower port |
| `PrivParent.ScaledEvenly` | targets/vsftpd/2.3.4/privops.c:148-154 | each port of the range has its even share of the draws |
| `PrivParent.PortsDrawn` | targets/vsftpd/2.3.4/privops.c:148-154 | a port can be drawn if and only if it lies in the range |
| `PrivParent.Parent.ProcessPostLoginReq` | targets/vsftpd/2.3.4/postprivparent.c:45-79 | one turn of the parent does, to its listening descriptor, its descriptors and its reply, what the handler specification says for every request |
| `PrivParent.Parent.CmdProcessGetDataSock` | targets/vsftpd/2.3.4/postprivparent.c:124-137 | dies exactly on a reserved port or a failed bind; answers BAD exactly when the control peer refuses, otherwise the socket, which is then closed here; the stub turns that into what a session connecting itself gets (oneprocess.c:128-133) |
| `PrivParent.Parent.CmdProcessPasvAccept` | targets/vsftpd/2.3.4/postprivparent.c:160-173 | answers -1 exactly when nobody came or nothing listens, -2 exactly when a stranger came and strangers are not welcome, otherwise the connection, which is then closed here; the stub turns that into what a session that accepts itself gets |
| `Hash.Table.constructor` | targets/vsftpd/2.3.4/hash.c:35-49 | a fresh table, for any hash function in range, is the empty map |
| `Hash.Table.GetNodeByKey` | targets/vsftpd/2.3.4/hash.c:131-146 | walking the one bucket finds the node of the key, or null exactly when the key is not in the map |
| `Hash.Table.LookupEntry` | targets/vsftpd/2.3.4/hash.c:51-60 | the cell handed out holds the map value of the key; null exactly when there is none |
| `Hash.Table.Store` | targets/vsftpd/2.3.4/standalone.c:222-228 | writing through a pointer got from a lookup updates the map at that key and nothing else |
| `Hash.Table.AddEntry` | targets/vsftpd/2.3.4/hash.c:62-90 | adds the key to the map; every chain stays well linked both ways, disjoint from the others and in its own bucket; the duplicate-key guard is unreachable for a new key |
| `Hash.Table.FreeEntry` | targets/vsftpd/2.3.4/hash.c:92-118 | removes the key from the map and relinks its neighbours; the not-found guard is unreachable for a present key |
| `Hash.Table.LinkFront` | targets/vsftpd/2.3.4/hash.c:80-89 | the pointer surgery of an insertion, chain by chain and pointer by pointer |
| `Hash.Table.Unlink` | targets/vsftpd/2.3.4/hash.c:103-115 | the pointer surgery of a removal: only the two neighbours and possibly the bucket head change |
| `Hash.OneNodePerKey` | targets/vsftpd/2.3.4/hash.c:65-68 | in a well-placed table a key names one node on one chain |
| `Hash.PlacedWithout` | targets/vsftpd/2.3.4/hash.c:92-118 | taking one node out leaves every other node on the chain its key hashes to, each key once |
| `Hash.PlacedFront` | targets/vsftpd/2.3.4/hash.c:62-90 | a new front node keeps every key on its own bucket, once |
| `Hash.FrontThreaded` | targets/vsftpd/2.3.4/hash.c:80-89 | after the front insertion the pointers thread exactly the chains with the new node |
| `Hash.WithoutThreaded` | targets/vsftpd/2.3.4/hash.c:103-115 | after the removal the pointers thread exactly the chains without the node |
| `Standalone.RunsBalance` | targets/vsftpd/2.3.4/standalone.c:137-196 | over every run of accepts, forks good and bad, and reaps: the counter is the number of live pids and of children started and not reaped, each address counts its live pids and has an entry exactly when it has any, and the counts sum to the counter |
| `Standalone.EventBalances` | targets/vsftpd/2.3.4/standalone.c:137-196 | every single event keeps the books balanced |
| `Standalone.StartedBalances` | targets/vsftpd/2.3.4/standalone.c:149-176 | counting in and a successful fork keep the books balanced |
| `Standalone.ReapBalances` | targets/vsftpd/2.3.4/standalone.c:235-255 | a reaped live child can be counted out without hitting a guard, and the books stay balanced |
| `Standalone.FailedForkUndone` | targets/vsftpd/2.3.4/standalone.c:177-182 | counting out after a failed fork restores the books exactly |
| `Standalone.SumIsTotal` | targets/vsftpd/2.3.4/standalone.c:212-233 | in balanced books the per-address counts sum to the number of children |
| `Standalone.CountersFit` | targets/vsftpd/2.3.4/standalone.c:149-153 | neither the total nor a per-address counter can wrap around |
| `Standalone.ReapAllWorks` | targets/vsftpd/2.3.4/standalone.c:235-255 | reaping any list of distinct live children succeeds and leaves balanced books without them |
| `Standalone.CloseWindow` | targets/vsftpd/2.3.4/standalone.c:169-176 | a SIGCHLD handled inside the parent's close, between fork and bookkeeping, finds every dead child in the books if and only if the new child is not among them; if so, entering it afterwards gives the balanced books it would have been in at once |
| `Standalone.FailedForkWindow` | targets/vsftpd/2.3.4/standalone.c:169-182 | after a failed fork the same window is harmless: the connection counted out afterwards leaves just the books without the dead |
| `Standalone.Listener.constructor` | targets/vsftpd/2.3.4/standalone.c:212-255 | the listener starts with empty, balanced books |
| `Standalone.Listener.HandleIpCount` | targets/vsftpd/2.3.4/standalone.c:292-310 | sets the count of the address to one more than it was and returns it |
| `Standalone.Listener.DropIpCount` | targets/vsftpd/2.3.4/standalone.c:212-233 | takes one off the count and removes the entry exactly when nothing is left; both guards unreachable for a counted address |
| `Standalone.Listener.HandleSigchld` | targets/vsftpd/2.3.4/standalone.c:235-255 | reaps every reported child out of both tables and the counter, keeping the books balanced |
| `Standalone.Listener.AcceptOne` | targets/vsftpd/2.3.4/standalone.c:137-196 | one turn of the accept loop: the dead leave the pid table and a new child enters it with its own address, the books stay balanced, and the numbers given to the child count it exactly once, in all and at its address |
| `Strings.LocateIs` | targets/vsftpd/2.3.4/str.c:459-484 | the place found is an occurrence with no occurrence to its left; nothing is found only if there is none |
| `Strings.LocateText` | targets/vsftpd/2.3.4/str.c:459-484 | finds the leftmost occurrence, and never an empty text |
| `Strings.LocateChars` | targets/vsftpd/2.3.4/str.c:432-457 | finds the first byte of the set, or shows there is none |
| `Strings.SplitIs` | targets/vsftpd/2.3.4/str.c:377-408 | left part, text and right part make up the string, and the left part ends at the first hit; without a hit all is left |
| `Strings.MyStr.AllocMemchunk` | targets/vsftpd/2.3.4/str.c:41-56 | the string is the bytes given, terminated, in a buffer grown only when needed |
| `Strings.MyStr.AppendMemchunk` | targets/vsftpd/2.3.4/str.c:58-84 | the string is its old contents and the bytes given, terminated |
| `Strings.MyStr.Trunc` | targets/vsftpd/2.3.4/str.c:137-146 | cuts the string; the guard is against the capacity, not the length |
| `Strings.MyStr.Reserve` | targets/vsftpd/2.3.4/str.c:148-159 | grows the buffer when needed; writes a terminator at the reserved place in any case, which cuts into a longer string's bytes |
| `Strings.MyStr.SplitText` | targets/vsftpd/2.3.4/str.c:377-408 | splits around the leftmost hit: left part here, right part there; all and nothing if there is none |
| `Strings.MyStr.ReplaceChar` | targets/vsftpd/2.3.4/str.c:307-318 | replaces exactly the bytes equal to the one given |
| `Strings.MyStr.ReplaceText` | targets/vsftpd/2.3.4/str.c:320-342 | is the replacement of every hit, leftmost first, without overlap, and ends |
| `Strings.TurnsReplace` | targets/vsftpd/2.3.4/str.c:328-341 | one turn's output followed by the replacement of the rest is the replacement of the whole |
| `FtpCmdIo.EscapingIsBytewise` | targets/vsftpd/2.3.4/ftpcmdio.c:128-133 | the two library calls together escape byte by byte: 255 doubled, LF to NUL |
| `FtpCmdIo.EscapeRoundTrip` | targets/vsftpd/2.3.4/ftpcmdio.c:128-133 | undoing the escape gives back the text if and only if it holds no NUL |
| `FtpCmdIo.UnescapeEscaped` | targets/vsftpd/2.3.4/ftpcmdio.c:128-133 | undoing the escape gives back the text with NUL turned into LF |
| `FtpCmdIo.ReplyIsOneLine` | targets/vsftpd/2.3.4/ftpcmdio.c:134-138 | a reply holds one LF, at its end, whatever its text |
| `FtpCmdIo.WriteStrCommon` | targets/vsftpd/2.3.4/ftpcmdio.c:114-152 | the bytes written are status, separator, escaped text and CR LF |
| `FtpCmdIo.CleanLine` | targets/vsftpd/2.3.4/ftpcmdio.c:223-233 | NUL becomes LF and all trailing CRs go |
| `FtpCmdIo.EchoedName` | targets/vsftpd/2.3.4/ftpcmdio.c:210-234 | a name shown in a reply and sent back on a command line arrives unchanged exactly when it has no byte 255, no NUL and no CR at its end |
| `NetStr.ReadLine` | targets/vsftpd/2.3.4/netstr.c:18-88 | for every way the network cuts the stream: a first terminator in reach gives the bytes before it and leaves those behind it; one out of reach, or none in a full reach, gives nothing and -1 and throws all in reach away; it dies exactly when the stream ends first; the three internal guards are unreachable; the number returned is the place of the terminator in the last piece, which is the length of the line if and only if that is the first |
| `NetStr.Scan` | targets/vsftpd/2.3.4/netstr.c:29-84 | the loop stops in the first piece that holds the terminator, at its place in that piece |
| `NetStr.ShortCount` | targets/vsftpd/2.3.4/netstr.c:71-71 | for a line of one byte that arrives before its terminator 0 is returned |
| `NetStr.LinesReadBack` | targets/vsftpd/2.3.4/netstr.c:18-88 | lines short enough and free of the terminator are read back one by one as they were sent |
| `NetStr.RepliesReadBack` | targets/vsftpd/2.3.4/ftpcmdio.c:114-152 | any sequence of replies, whatever bytes their texts hold, is read by a line reader as exactly one line each |
| `Ls.IsolateToken` | targets/vsftpd/2.3.4/ls.c:253-273 | the literal before the next special byte, that byte, and the rest |
| `Ls.FilenamePassesFilter` | targets/vsftpd/2.3.4/ls.c:221-368 | the loop with its recursion and shared counter computes the matching function on every name, filter and counter, and ends because every brace recursion gets a shorter filter |
| `Ls.TryAlternatives` | targets/vsftpd/2.3.4/ls.c:313-330 | tries the pieces of a brace list in turn, each followed by the rest of the filter, up to the first empty one; what that accepts is Braces.ListTriesAll |
| `Ls.TokenUnique` | targets/vsftpd/2.3.4/ls.c:253-266 | the split at the first special byte is the only one |
| `Glob.LoopSound` | targets/vsftpd/2.3.4/ls.c:221-368 | whenever the matcher accepts, the name is in the declared language of the filter: stars, question marks, brace lists re-read with the rest, and an unclosed brace as itself |
| `Glob.LoopCounts` | targets/vsftpd/2.3.4/ls.c:251-257 | the counter shared by all nested calls only grows, never passes 1000 from a start within it, and reaching it never accepts |
| `Glob.TameExact` | targets/vsftpd/2.3.4/ls.c:251-360 | for anything without braces before the first star, and after it no literal directly behind a question mark and a star at the end: accepted if and only if in the language and within the budget |
| `Glob.BracelessExact` | targets/vsftpd/2.3.4/ls.c:221-368 | a filter without braces is matched exactly if and only if it fits the budget and, if it has a star, ends in one and has no literal directly behind a question mark after the first; every other one rejects a name it describes |
| `Glob.StarFiltersExact` | targets/vsftpd/2.3.4/ls.c:280-294 | without question marks: exact if and only if it fits the budget and has no star or ends in one |
| `Glob.StarAMissesAba` | targets/vsftpd/2.3.4/ls.c:280-294 | the filter "*a" rejects "aba", which it describes |
| `Glob.OverBudget` | targets/vsftpd/2.3.4/ls.c:356-360 | a braceless filter of 1000 or more turns accepts nothing |
| `Glob.StarComplete` | targets/vsftpd/2.3.4/ls.c:280-294 | after a star, taking the leftmost hit loses nothing for a filter that ends in a star and has no literal directly behind a question mark (exchange argument) |
| `Braces.StarlessExact` | targets/vsftpd/2.3.4/ls.c:296-347 | a filter with braces and without stars, none of whose pieces is empty: if its turns, counted from the filter alone, fit the budget, a name is accepted if and only if the filter describes it |
| `Braces.LoopTakes` | targets/vsftpd/2.3.4/ls.c:251-257 | the counter never moves further than the turns counted from the filter, for any name and from any state |
| `Braces.LoopShifts` | targets/vsftpd/2.3.4/ls.c:251-257 | within the budget the verdict does not depend on where the counter starts |
| `Braces.TurnsAreTokens` | targets/vsftpd/2.3.4/ls.c:253-273 | without braces the turns are the tokens, at most the length of the filter |
| `Braces.ListTriesAll` | targets/vsftpd/2.3.4/ls.c:313-330 | a brace list in front of any rest, stars included, passes a name if and only if one of its pieces followed by that rest does, when the turns fit the budget |
| `Braces.ShortListTriesAll` | targets/vsftpd/2.3.4/ls.c:313-330 | the same under a bound on lengths: when the pieces, each with the rest, are together short enough |
| `Braces.StarLostBeforeList` | targets/vsftpd/2.3.4/ls.c:274-294 | a star directly before a brace list changes nothing |
| `Braces.SecondPiecePasses` | targets/vsftpd/2.3.4/ls.c:313-330 | the filter "{a,b}" accepts "b" |
| `Braces.StarlessComplete` | targets/vsftpd/2.3.4/ls.c:296-347 | from any state of the loop: a name such a filter describes is accepted, or the counter has reached the budget |
| `Braces.EmptyPieceEnds` | targets/vsftpd/2.3.4/ls.c:313-330 | a filter that begins with a brace list whose first piece is empty accepts nothing |
| `Braces.EmptyPieceMissesA` | targets/vsftpd/2.3.4/ls.c:313-330 | the filter "{,a}" rejects "a", which it describes |
| `Ascii.ConvertToBin` | targets/vsftpd/2.3.4/ascii.c:12-54 | in place: the bytes written are those of the buffer with a CR before LF dropped, a held CR put in front when needed and a last CR held back |
| `Ascii.Compact` | targets/vsftpd/2.3.4/ascii.c:33-51 | the loop never overwrites a byte it has not read |
| `Ascii.ConvertToAscii` | targets/vsftpd/2.3.4/ascii.c:56-98 | the output is the buffer with CR put before each LF not after a CR, carry included, at most twice as long |
| `Ascii.ReceiveStep` | targets/vsftpd/2.3.4/ascii.c:12-54 | what one call writes is exactly what the longer input adds to what was written; at the end of the stream the held CR completes it: the result is independent of chunking |
| `Ascii.SendSplits` | targets/vsftpd/2.3.4/ascii.c:56-98 | converting piece by piece with the carry is converting the whole |
| `Ascii.ToAsciiIdempotent` | targets/vsftpd/2.3.4/ascii.c:56-98 | converting twice is converting once |
| `Ascii.ReceiveOfSend` | targets/vsftpd/2.3.4/ascii.c:12-98 | receiving a sent stream gives what receiving the stream itself gives, at every carry |
| `Ascii.SendThenReceive` | targets/vsftpd/2.3.4/ascii.c:12-98 | a file sent and received again is itself if and only if it holds no CR LF |
| `Ascii.ReceiveThenSend` | targets/vsftpd/2.3.4/ascii.c:12-98 | a stream received and sent again is itself if and only if every LF stands after a CR that does not itself stand after a CR |
| `DataIo.Sink.WriteLoop` | targets/vsftpd/2.3.4/sysutil.c:426-460 | however writes are cut: all of the data if there is room, else as much as there is room for |
| `DataIo.FileRecv` | targets/vsftpd/2.3.4/ftpdataio.c:571-631 | for every fragmentation of the network and of the disk: in binary mode the stream, in ASCII mode its conversion to the end (without a CR at its end when the network failed) is on disk as far as there is room; -1 exactly when there was not, -2 exactly when the network failed, 0 otherwise, with the right count |
| `DataIo.StoredIs` | targets/vsftpd/2.3.4/ftpdataio.c:600-625 | what the turns of the loop store is the stream in binary mode, the whole conversion in ASCII mode, and that of the stream without a CR at its end when the network failed |
| `DataIo.FileSend` | targets/vsftpd/2.3.4/ftpdataio.c:450-521 | for every fragmentation: the peer has the file, with a CR put before each bare LF in ASCII mode, as far as it takes bytes; -2 exactly when it did not take all, -1 exactly when the file could not be read, 0 otherwise, with the right count; every piece fits the SSL slave's string limit |
| `DataIo.SendChunk` | targets/vsftpd/2.3.4/ftpdataio.c:490-520 | one turn writes the converted buffer, within the string limit, and carries whether it ended in CR |
| `DataIo.WriteDirList` | targets/vsftpd/2.3.4/ftpdataio.c:395-430 | the lines go out in order in pieces, none empty and none over the buffer unless it is one line |
| `DataIo.ConcatPush` | targets/vsftpd/2.3.4/ftpdataio.c:404-419 | a line put behind the others goes out behind them, as it is |
| `Session.Session.constructor` | targets/vsftpd/2.3.4/session.h:20-80 | a session starts between commands, in no mode |
| `Session.Session.PortActive` | targets/vsftpd/2.3.4/postlogin.c:494-507 | says whether PORT is active; the mutual recursion ends, and the both-active guard is unreachable, because only one mode can be |
| `Session.Session.PasvActive` | targets/vsftpd/2.3.4/postlogin.c:509-529 | the same for PASV, whose state the parent holds |
| `Session.Session.HandlePasv` | targets/vsftpd/2.3.4/postlogin.c:550-629 | leaves both modes, then listens; EPSV ALL and bad protocols change nothing else; dies exactly when no port could be bound, or for PASV when the configured address is none |
| `Session.Session.Privileged` | targets/vsftpd/2.3.4/postlogin.c:1356-1369 | whenever a call to the parent is outstanding there is no data descriptor, so a SIGURG handled meanwhile does nothing; the call has the direct call's effect |
| `Session.Session.Aim` | targets/vsftpd/2.3.4/postlogin.c:960-979 | the address is kept exactly when it is the peer's with an unreserved port, or the checks are off |
| `Session.Session.InitDataSockParams` | targets/vsftpd/2.3.4/ftpdataio.c:215-234 | installs descriptor and I/O handler; "data descriptor still present" and "double register" are unreachable |
| `Session.Session.DisposeTransferFd` | targets/vsftpd/2.3.4/ftpdataio.c:55-95 | closes encryption, handler and descriptor; its guards are unreachable |
| `Session.Session.GetRemoteTransferFd` | targets/vsftpd/2.3.4/postlogin.c:1398-1426 | dies exactly when the socket of an active connection is not to be had or the TLS negotiation fails; otherwise gives a data connection exactly when the peer came or answered and the handshake was not refused, and leaves none behind if it was; "neither PORT nor PASV active" is unreachable |
| `Session.Session.PostMarkConnect` | targets/vsftpd/2.3.4/ftpdataio.c:147-183 | the handshake is asked for only with no SSL object in place, so the slave's "state not clean" is unreachable; the process dies exactly when the TLS negotiation fails |
| `Session.Session.LogStartEntry` | targets/vsftpd/2.3.4/logging.c:72-89 | "non null log_type" is unreachable from every handler |
| `Session.Session.HandleRetr` | targets/vsftpd/2.3.4/postlogin.c:631-770 | the session after RETR, its log lines and whether it lives, as a function of the session before and the outside, on every path; the deaths are those of the data connection and of the seek after REST |
| `Session.Session.HandleUploadCommon` | targets/vsftpd/2.3.4/postlogin.c:990-1144 | the same for STOR, APPE and STOU, with the deaths of the chown and of cutting or seeking in the file |
| `Session.Session.HandleDirCommon` | targets/vsftpd/2.3.4/postlogin.c:778-920 | the same for LIST, NLST and STAT, with the deaths of the data connection |
| `Session.Session.HandleRnto` | targets/vsftpd/2.3.4/postlogin.c:1284-1324 | the same for RNTO |
| `Session.Session.Execute` | targets/vsftpd/2.3.4/postlogin.c:112-446 | between commands PASV and PORT are never both active, there is no data descriptor, I/O handler, SSL object, open file or pending log entry, and no socket but the listening one; every command keeps this and does what the specification of commands says; the process ends exactly on QUIT, on a death the specification names (no port, a bad address, a refused chown, a file that cannot be positioned, no active socket, a failed TLS negotiation), or with the connection lost or a timeout |
| `SessionRuns.PostLogin` | targets/vsftpd/2.3.4/postlogin.c:112-446 | over any sequence of commands and any behaviour of the outside the loop follows the specification, no guard is hit, and it stops only on a permitted QUIT, on a death the specification names, or with the connection lost or a timeout |
| `SessionRuns.OneConnectionPerGrant` | targets/vsftpd/2.3.4/postlogin.c:1398-1426 | in every run at most one data connection is asked for per granted PASV, EPSV, PORT or EPRT, and every file logged as moved had one of its own |
| `SessionRuns.AimStaysChecked` | targets/vsftpd/2.3.4/postlogin.c:965-979 | in every run an active address is the peer's with a port of at least 1024, or the checks are off |
| `SessionRuns.IllegalPortReachable` | targets/vsftpd/2.3.4/privops.c:45-48 | in a run that the outside allows and no turn has ended, a client can make the process die on a reserved port if and only if PORT is enabled, the address checks are off, and data connections are to be had, in clear or after PROT |
| `SessionRuns.EpsvAllStays` | targets/vsftpd/2.3.4/postlogin.c:561-566 | after EPSV ALL, in every run, only EPSV listens |
| `SessionRuns.EpsvAllLeavesEprt` | targets/vsftpd/2.3.4/postlogin.c:318-322 | after EPSV ALL the session goes into active mode exactly on an accepted EPRT |
| `SessionRuns.QueriesEnd` | targets/vsftpd/2.3.4/postlogin.c:494-529 | the two queries call each other for ever if and only if both modes are active, and otherwise at most once |
| `SessionLaws.Remembered` | targets/vsftpd/2.3.4/postlogin.c:631-639 | in every run: the transfer type is the argument of the last permitted TYPE, the restart point that of the last REST if no RETR or upload came after it and else 0, the protection that of the last PROT of an encrypted session, a rename source is set exactly by a last RNFR that found its file and no RNTO has used up, and EPSV ALL holds once given |
| `SessionLaws.ModeIs` | targets/vsftpd/2.3.4/postlogin.c:550-629 | each command and the mode: passive on the new socket, active to an address that will do, none after a transfer or an address that will not, and otherwise as it was |
| `SessionLaws.DownloadLogged` | targets/vsftpd/2.3.4/postlogin.c:631-770 | a download is logged as good exactly when a permitted RETR had a connection to ask for, did not resume in ASCII, found a readable regular file, and all of it went through, encrypted if that was set |
| `SessionLaws.UploadLogged` | targets/vsftpd/2.3.4/postlogin.c:990-1144 | an upload is logged as good exactly when a permitted STOR, APPE or STOU had a connection to ask for, made its file, and all went through |
| `SessionLaws.OperationLogged` | targets/vsftpd/2.3.4/postlogin.c:1284-1324 | any other entry is logged as good exactly when its command was permitted and done; a rename needs a source |
| `SessionLaws.FailureLogged` | targets/vsftpd/2.3.4/logging.c:98-118 | a command is logged at most once, under its own kind, and as failed exactly when it tried and did not succeed |
| `SessionLaws.EndsIs` | targets/vsftpd/2.3.4/postlogin.c:112-446 | exactly when each command ends the process, in terms of the settings, the mode and the outside |
| `SslSlave.Slave.Turn` | targets/vsftpd/2.3.4/sslslave.c:32-110 | one turn of the slave does to its descriptor, SSL object and string, and replies, what the handler specification says for every request |
| `SslSlave.Slave.ReadIntoStr` | targets/vsftpd/2.3.4/ssl.c:316-330 | cutting the string to a full buffer is always legal, and it then holds the bytes read |
| `SslSlave.Slave.GetStr` | targets/vsftpd/2.3.4/privsock.c:152-169 | the string is the bytes received; its capacity never shrinks |
| `SslSlave.SlaveKeepsGoing` | targets/vsftpd/2.3.4/sslslave.c:32-110 | over any sequence of data connections with any I/O and any writes from the session's buffers: the slave goes on if and only if no handshake fails in the TLS negotiation; it is then clean at every handshake, is sent no string that is too long, and holds no descriptor afterwards |
| `SslSlave.UseServed` | targets/vsftpd/2.3.4/ssl.c:538-551 | one data connection, writing what is in the session's buffers, is served if and only if its TLS negotiation does not fail, and then takes a clean slave to a clean slave |
| `SslSlave.JobsServed` | targets/vsftpd/2.3.4/readwrite.c:79-124 | any reads and writes after a good handshake are served if and only if no write is over the string limit |
| `SslSlave.BufferedIsSized` | targets/vsftpd/2.3.4/defs.h:19-21 | what a session writes from its buffers is within the limit, even doubled by the ASCII conversion |
| `Signals.Dispatcher.CheckPendingActions` | targets/vsftpd/2.3.4/sysutil.c:149-178 | however handlers re-enter it, and whatever each does each time: the I/O handler is entered exactly after I/O, when it is in place and idle; the running flags return as they were, no pending flag is lost, and every pending signal whose handler was not under way has had it called; the nesting ends |
| `Signals.Dispatcher.Run` | targets/vsftpd/2.3.4/sysutil.c:155-177 | a handler is entered only when it is not already on the call stack: a signal's only with its flag pending, the I/O handler only after I/O and in place |
| `Signals.DepthBound` | targets/vsftpd/2.3.4/sysutil.c:138-148 | a call stack without repeats is no deeper than the number of signals plus the I/O handler |
| `Bandwidth.Session.HandleIo` | targets/vsftpd/2.3.4/ftpdataio.c:236-281 | progress and the start of the next interval for a call on the data descriptor, and nothing for any other; it pauses exactly when the bytes come to at least the limit plus one for each second elapsed, and then until they come to the limit or less than one a second more |
| `Bandwidth.RateIs` | targets/vsftpd/2.3.4/ftpdataio.c:268-268 | the rate is the truncated quotient of bytes and elapsed time |
| `Bandwidth.PauseIs` | targets/vsftpd/2.3.4/ftpdataio.c:268-280 | a call is too fast exactly when its bytes reach limit plus one times the time elapsed; with its pause limit times the time is at most the bytes, and less than the time elapsed below them |
| `Bandwidth.OneCall` | targets/vsftpd/2.3.4/ftpdataio.c:260-280 | one call moves fewer bytes than limit plus one for each second it is credited with |
| `Bandwidth.WithinCredits` | targets/vsftpd/2.3.4/ftpdataio.c:236-281 | so does any sequence, a hundredth of a second credited where the clock does not advance |
| `Bandwidth.LimitHolds` | targets/vsftpd/2.3.4/ftpdataio.c:236-281 | with an advancing clock any sequence of calls moves fewer bytes than (limit + 1) times the time that passes |
| `Bandwidth.CallKeepsLimit` | targets/vsftpd/2.3.4/ftpdataio.c:260-280 | with a sleep exactly as long as asked, one call stays within limit times the time it is credited with if and only if it was within it before the pause or its rate lost nothing to truncation; with a longer sleep that still suffices |
| `Bandwidth.LimitKept` | targets/vsftpd/2.3.4/ftpdataio.c:236-281 | with an advancing clock any sequence of such calls stays within limit times the time that passes |
| `Bandwidth.LimitAloneExceeded` | targets/vsftpd/2.3.4/ftpdataio.c:268-274 | limit times the time is not a bound: three bytes in two seconds pass under a limit of one byte a second |
| `SecBuf.AddressSpace.Alloc` | targets/vsftpd/2.3.4/secbuf.c:17-62 | the buffer the pointer held is released first; then the mapping, its recorded size and its two guard pages; the buffer ends exactly at the trailing guard page if and only if the size computation does not wrap; dies when there is no mapping |
| `SecBuf.AddressSpace.Free` | targets/vsftpd/2.3.4/secbuf.c:64-88 | unmaps exactly the mapping of the buffer, its two guard pages with it; nothing for a null pointer; needs the mapping to be there, and it is not afterwards |
| `SecBuf.RoundUp` | targets/vsftpd/2.3.4/secbuf.c:28-42 | the size rounded up to a page and its two guard pages, if and only if that fits in 32 bits; otherwise the remainder the unsigned steps leave |
| `SecBuf.EndsAtGuard` | targets/vsftpd/2.3.4/secbuf.c:46-61 | offset, size and the trailing guard page make up the mapping if and only if the size did not wrap |
| `SecBuf.OffsetIs` | targets/vsftpd/2.3.4/secbuf.c:56-61 | offset, size and one page make up the mapping, which is whole pages, and the buffer starts in the page after the leading guard page |
| `SecBuf.FreeFindsBase` | targets/vsftpd/2.3.4/secbuf.c:75-81 | from the buffer pointer the start of the mapping is recovered, for every size |
| `SecBuf.StalePointer` | targets/vsftpd/2.3.4/secbuf.c:64-88 | after a free and any further calls, freeing the same pointer again is possible if and only if a later allocation mapped its base and nothing has released it since |

## Left out

- Login, user switching, chroot, PAM and the `PRIV_SOCK_LOGIN` exchange: the model starts where the session is logged in.
- The HTTP mode, banners, configuration parsing, directory-line formatting and log text.
- System calls, sockets, OpenSSL and clocks: replaced by parameters, as described above.
- `hash_ip` and `hash_pid`: the table is proved for every hash function with results in range, which is all it asks of them.
- Parsing of command names and arguments: a command comes with its argument parsed, and `World.permitted` stands for the command lists and the tunables of that command.
- Session: the result of a transfer is a parameter (`World.transfer`); what it is for each stream is the subject of `DataIo`.
- The `do_sendfile` path of unencrypted binary downloads and the size computation in front of it.
- `str_list` sorting, the option letters of `ls`, tilde expansion, the unique-name loop of STOU, deletion of failed uploads, umask and SITE other than CHMOD.
- Session.Session.Execute: a reply that cannot be written and a timeout end the process in the middle of a command in the code, and at the end of it here (`World.lasts`). Nothing is claimed about a session that has ended.
- TwoProcess.RunsRefine: the calls are those of the main program; those the SIGURG handler makes while one is outstanding are the subject of `AsyncAbor`. In `Session` all the handler leaves is `World.abort`.
- AsyncAbor.OwnAnswersExact: a timeout handler also writes its reply through the slave, whatever call is outstanding; the process exits right after it, so nothing it is given for an answer is used, and the model ends the session there (`World.lasts`). A write on the control connection is taken to be open to the SIGURG handler always, not only while there is a data connection.
- Stubs.Consumer.ReadData: the stubs as they are written run without a handler's call in between.
- Session.Session.Execute: of the system calls whose failure is fatal, those that position a file are modelled; `fstat`, `fcntl`, `close`, `malloc` and the like are taken not to fail.
- Session: the fields of `struct vsf_session` that belong together are grouped in the records `Conn` and `Prefs`, held in fields of the class.
- TwoProcess.StepRefines: the stubs of the child and the loops of the parent and the slave are values stepped one stream item at a time, because their interleaving is the point. The same code as written, updating objects in place, is in `PrivChannel`, `Stubs`, `PrivParent` and `SslSlave`, where the far end takes its turn while the caller waits.
- Strings.MyStr.ReplaceText: the two static scratch strings are values; so are the local strings of the matcher in `Ls`. Aliasing between them is not modelled.
- Glob.LoopSound: for filters with both stars and braces no exact condition against the language is given; what a brace list adds there is `Braces.ListTriesAll`.
- Braces.StarlessExact: that no piece is empty suffices; a filter with an empty piece may still be matched exactly, when what the piece hides is described otherwise.
- Signals.Dispatcher.CheckPendingActions: handlers that put a signal back to its default or change alarms are not modelled; no handler of the daemon does the first.
- Bandwidth.LimitHolds: real arithmetic; the wrap-around of a rate above 32 bits and the microsecond resolution of the clock are not modelled.
- Standalone.Listener.AcceptOne: SIGCHLD is handled where accept waits; the window in which it can be handled elsewhere is the subject of `Standalone.CloseWindow`.
- SecBuf.AddressSpace.Alloc: the contents of pages other than the stored size are not modelled.
- SslSlave.SlaveKeepsGoing: a single line of a listing that is longer than the listing buffer is not among the writes; the code sends it as it is.
- Bandwidth.LimitKept: that every call is even suffices for a sequence; in a sequence a slow call can make up for one that is not.

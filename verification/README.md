# tcpproxy relay and option parser in Dafny

tcpproxy accepts a TCP connection and dials a remote endpoint for it. It then copies bytes in
both directions through two bounded buffers, one per direction, until both directions are
closed. This project models that relay engine and the command-line parser, and proves
properties of both.

The relay engine is `src/clients.c`. The parser and its hex decoder are `src/options.c`.

- **Relay** (`relay.dfy`) is a pure model of one `client_t`. It holds:
  - the client state `state_` (CONNECTING, CONNECTED or CLOSING);
  - for each side, its role `fd_state_[i]`;
  - for each side, the bytes queued to be sent on it, the buffer capacity and the
    `transferred_` counter;
  - for each side, a count of the `shutdown(SHUT_WR)` calls issued on it.

  Every step of the event loop is a function on that value. These steps are:
  - the read and write interest that `clients_read_fds` and `clients_write_fds` compute;
  - recv, send, `client_handle_close`, `client_handle_pending` and `handle_connect`.

  The lemmas prove three groups of properties:
  - **Single steps:** what each step does.
  - **Invariants:** every step keeps the buffers within their capacity. Every step the
    readiness interest admits also keeps the roles coherent, so a side is shut down at most
    once. The same holds for a whole `clients_read` or `clients_write` pass over one client,
    provided every side select() reported was one the interest functions asked for.
  - **Whole runs of the loop:** consider any run of admitted events that does not remove the
    client. Over such a run, every byte received on one side is either sent on the other, in
    order, or still queued. `transferred_` counts exactly what the kernel accepted. Runs that
    remove the client can lose queued bytes; see "## Findings".
- **Clients** (`clients.dfy`) is the imperative model.
  - A `Client` object has the fields of `client_t`. Its two write buffers are arrays.
    Its methods update the fields in place.
  - A `Registry` holds the list of clients.
  - Every method is proved to do to the client's abstract view exactly what the Relay function
    of the same step does. Buffer compaction is a `memmove` over the array.
  - `clients_read` and `clients_write` serve every listed client in order. They unlink the
    clients whose pass asks for removal.
- **RelayDefects** and **HalfClose** (`findings.dfy`) cover the relay's defects.
  - RelayDefects has concrete runs of the relay as written that leak a client or lose bytes.
  - HalfClose is the relay as the program evidently intends it. Each direction closes on its
    own: the half-close test in `contrib/testclient.c` (mode A) shuts down its write side and
    then waits for the echo. Removal is postponed while data is pending for a side
    (src/clients.c:324). The corrected properties are proved about HalfClose.
- **Hex** (`hex.dfy`) is `options_parse_hex_string`. It is specified by a pure decoder with a
  proved inverse.
- **Options** (`options.dfy`) covers `options_default` and `options_parse`. The pieces are:
  - `Lex` gives the directives argv spells and the code the scan ends with.
  - `ApplyAll` gives what those directives do to the settings.
  - The `Options` class, which holds the `options_t` fields, is proved to follow them.
  - Lemmas describe a successful parse in terms of argv alone: last occurrence wins, `-L`
    targets are kept in order, the switches work as described, and the error codes say where
    the scan stopped.

The operating system's calls are inputs to the methods:
- `recv` gives a `RecvResult`: failure, end of stream, or the bytes read. It returns no more
  bytes than it was asked for.
- `send` gives a `SendResult`: failure, or a count no larger than the bytes offered.
- `getsockopt(SO_ERROR)` gives a `SockOpt`.
- `socket`, `setsockopt`, `fcntl`, `bind` and `connect` are the parameters of `Registry.Add`.
- `select()` gives the readiness set.

## Model

| member | source | states |
|---|---|---|
| `Relay.Initial` | src/clients.c:115-131 | a new client is CONNECTING, side 0 ESTABLISHED, side 1 ESTABLISHING, nothing queued; it satisfies the structural invariant and role coherence |
| `Relay.HandleClose` | src/clients.c:302-333 | the client becomes CLOSING, no buffer or counter changes, and removal is asked for exactly when `out` is ESTABLISHING or CLOSE_LINGER |
| `Relay.HandlePending` | src/clients.c:377-395 | only side i changes, and removal is never asked for |
| `Relay.Receive` | src/clients.c:355-369 | the receiving side's own queue and free space are untouched; no capacity or counter changes |
| `Relay.Send` | src/clients.c:411-429 | the other side and the state are untouched, the capacity is kept, and the client is removed exactly when send() failed |
| `Relay.Connect` | src/clients.c:73-102 | handle_connect on the model of one client yields a two-sided client (what it does is stated by ConnectOutcome) |
| `Relay.ReadSides` | src/clients.c:346-370 | the sides i.. of one client's clients_read loop yield a two-sided client |
| `Relay.ReadPass` | src/clients.c:344-371 | clients_read's pass over one client yields a two-sided client |
| `Relay.WriteSides` | src/clients.c:408-432 | the sides i.. of one client's clients_write loop yield a two-sided client |
| `Relay.WritePass` | src/clients.c:406-437 | clients_write's pass over one client yields a two-sided client |
| `Relay.ReceiveOutcome` | src/clients.c:355-369 | recv keeps the invariant; it removes exactly on failure or on end of stream with `out` CLOSE_LINGER; N bytes are appended in order to the other side's queue and nothing else changes |
| `Relay.HandleCloseOutcome` | src/clients.c:308-332 | `in` becomes CLOSE_PENDING iff bytes are queued for it, else CLOSE_LINGER; an ESTABLISHED `out` becomes FIN_PENDING (bytes queued) or FIN_LINGER with one shutdown; other roles of `out` are untouched; removal iff `out` is CLOSE_LINGER |
| `Relay.SendOutcome` | src/clients.c:418-429 | transferred grows by exactly the bytes sent, the unsent tail stays queued in order, an emptied CLOSE_PENDING/FIN_PENDING side moves to CLOSE_LINGER/FIN_LINGER with one shutdown, and no removal |
| `Relay.ConnectOutcome` | src/clients.c:73-102 | success exactly for a CONNECTING client with no pending error, then CONNECTED, side 1 ESTABLISHED, both buffers of the configured size, empty, counters 0; otherwise -1 and the client is unchanged |
| `Relay.Step` | src/clients.c:335-441 | every event the readiness interest admits keeps the structural invariant (queues within capacity, connect phase idle) |
| `Relay.ReadCoherent` | src/clients.c:355-369 | an admitted recv keeps the roles coherent and issues a shutdown only on entering a *_LINGER role with nothing queued |
| `Relay.WriteCoherent` | src/clients.c:411-429 | an admitted send keeps the roles coherent, with the same shutdown discipline |
| `Relay.ReadSidesCoherent` | src/clients.c:346-370 | the recv loop over one client's sides, when every ready side was asked for by the read interest, keeps the invariant and the roles coherent |
| `Relay.ReadPassCoherent` | src/clients.c:344-371 | a clients_read pass over one client, with every ready side asked for, keeps the invariant and the roles coherent |
| `Relay.WriteSidesCoherent` | src/clients.c:408-432 | the send loop over one client's sides, when every ready side was asked for by the write interest, keeps the invariant and the roles coherent |
| `Relay.WritePassCoherent` | src/clients.c:406-437 | a clients_write pass over one client (sends, or connect completion), with every ready side asked for, keeps the invariant and the roles coherent |
| `Relay.ReceiveKeepsWriteInterest` | src/clients.c:355-369 | a recv never takes a side out of the write set |
| `Relay.ReceiveKeepsReadInterest` | src/clients.c:355-369 | a recv on side 0 that keeps the client leaves side 1 in the read set if it was there |
| `Relay.ReadSidesKeepWriteInterest` | src/clients.c:346-370 | the recv loop over one client's sides keeps every side that was in the write set in it |
| `Relay.ReadPassKeepsWriteInterest` | src/clients.c:344-371 | a clients_read pass keeps every side that clients_write_fds asked to write still wanted, so the write sets select() returned are still asked for when clients_write runs |
| `Relay.StepCoherent` | src/clients.c:335-441 | every admitted event keeps the roles coherent: each side is shut down at most once |
| `Relay.HalfCloseDeferred` | src/clients.c:313-316 | end of stream while bytes are queued for the other side defers its shutdown (FIN_PENDING, no shutdown yet) |
| `Relay.DrainShutsDownOnce` | src/clients.c:424-428 | the send that empties a FIN_PENDING side's queue is admitted and issues exactly one shutdown, leaving FIN_LINGER |
| `Relay.FillingStopsReading` | src/clients.c:237-251 | a receive that fills the other side's buffer takes the reading side out of the read set (backpressure) |
| `Relay.DrainingResumesReading` | src/clients.c:419-423 | any successful send out of a full buffer puts the side that feeds it back into the read set |
| `Relay.Final` | src/clients.c:335-441 | the client after any run the loop can produce still satisfies the invariant |
| `Relay.StepConserves` | src/clients.c:355-429 | one step: queued bytes plus bytes arrived from the other side equal bytes sent plus bytes queued after; transferred grows by the bytes sent |
| `Relay.RunConserves` | src/clients.c:335-441 | over any live run, queued plus everything received on the other side equals everything sent plus what is still queued, and transferred counts exactly the bytes sent |
| `Relay.DrainedRunIsExact` | src/clients.c:335-441 | from a new client, once a buffer is empty, its socket was sent exactly the bytes received on the other socket, and transferred equals their number |
| `Clients.MemMove` | src/clients.c:421 | the count bytes at from.. move in order to the front; the rest of the array is untouched |
| `Clients.Deposit` | src/clients.c:355 | recv writes its bytes at the offset; the bytes before and after are untouched |
| `Clients.Client.constructor` | src/clients.c:115-131 | the fields of a new client, whose view is Relay.Initial |
| `Clients.Client.ReadInterest` | src/clients.c:237-251 | fd_[i] joins the read set exactly when Relay.WantsRead holds (CONNECTED/CLOSING, side not CLOSE_*, room in the other buffer) |
| `Clients.Client.WriteInterest` | src/clients.c:265-285 | fd_[i] joins the write set exactly when Relay.WantsWrite holds (queued bytes on an ESTABLISHED/CLOSE_PENDING/FIN_PENDING side, or fd_[1] while CONNECTING) |
| `Clients.Client.AddInterest` | src/clients.c:236-252 | one client's part of clients_read_fds/clients_write_fds adds exactly its wanted sockets and raises max_fd to the largest |
| `Clients.Client.HandleConnect` | src/clients.c:73-102 | the fields change exactly as Relay.Connect says, with fresh buffers |
| `Clients.Client.Open` | src/clients.c:169-184 | a connect in progress leaves the new client as it is; one that completed at once runs handle_connect, and -1 exactly when that fails |
| `Clients.Client.HandleClose` | src/clients.c:302-333 | the fields and the removal flag are exactly Relay.HandleClose's |
| `Clients.Client.HandlePending` | src/clients.c:377-395 | the fields and the removal flag are exactly Relay.HandlePending's |
| `Clients.Client.Receive` | src/clients.c:355-369 | one recv on fd_[src] changes the fields exactly as Relay.Receive says |
| `Clients.Client.Queue` | src/clients.c:368-369 | the received bytes land after the queued ones in the other buffer, and the offset grows by their number |
| `Clients.Client.Send` | src/clients.c:411-417 | one send on fd_[i] changes the fields exactly as Relay.Send says |
| `Clients.Client.Sent` | src/clients.c:418-430 | a send of len bytes changes the fields exactly as Relay.Send says |
| `Clients.Client.SentPart` | src/clients.c:419-423 | a partial send counts len bytes and moves the unsent tail to the front |
| `Clients.Client.SentAll` | src/clients.c:424-429 | a complete send empties the buffer and completes a pending close or FIN |
| `Clients.Client.ReadOutcomeCoherent` | src/clients.c:344-371 | a clients_read pass over a coherent client whose ready sides were all asked for leaves it satisfying the invariant and coherent |
| `Clients.Client.WriteOutcomeCoherent` | src/clients.c:406-437 | a clients_write pass over a coherent client whose ready sides were all asked for leaves it satisfying the invariant and coherent |
| `Clients.Client.ReadOutcomeKeepsWriteAsk` | src/clients.c:344-371 | every side asked for by clients_write_fds before the read pass is still wanted for writing after it |
| `Clients.Client.ServeRead` | src/clients.c:344-371 | the read pass over one client's two sides is exactly Relay.ReadPass |
| `Clients.Client.ServeWrite` | src/clients.c:406-437 | the write pass over one client is exactly Relay.WritePass |
| `Clients.Client.SendReady` | src/clients.c:408-432 | the send loop over the two sides is exactly Relay.WriteSides |
| `Clients.Registry.constructor` | src/clients.c:62-66 | an empty list with the given buffer size |
| `Clients.Registry.InterestMembers` | src/clients.c:229-288 | a socket is of interest exactly when some listed client owns it and wants that side |
| `Clients.Registry.Add` | src/clients.c:104-185 | 0 exactly when socket, options, bind and connect succeed; then the list gains one fresh client at the end, Initial or connected; otherwise -1 and the list is unchanged |
| `Clients.Registry.Append` | src/clients.c:162 | the client joins the end of the list |
| `Clients.Registry.Find` | src/clients.c:192-206 | the first client owning fd, or null exactly when none owns it |
| `Clients.Registry.InterestFds` | src/clients.c:234-254 | the set grows by exactly the sockets of interest, and max_fd becomes the larger of its old value and theirs |
| `Clients.Registry.ReadFds` | src/clients.c:229-255 | clients_read_fds: the set grows by exactly the sockets wanted for reading; max_fd is raised to the largest |
| `Clients.Registry.WriteFds` | src/clients.c:257-288 | clients_write_fds: the set grows by exactly the sockets wanted for writing; max_fd is raised to the largest |
| `Clients.Registry.Retain` | src/clients.c:357-366 | the slist_remove calls of a pass: the list becomes exactly the kept clients, in order, each showing its pass's outcome |
| `Clients.Registry.ServeReadAt` | src/clients.c:342-371 | serving one client of clients_read changes only that client, as its pass says |
| `Clients.Registry.ServeAllRead` | src/clients.c:340-372 | every client is served in list order; the kept ones are, in order, those not removed |
| `Clients.Registry.Read` | src/clients.c:335-375 | clients_read: the list becomes the clients not removed, in order, each changed exactly as Relay.ReadPass says; returns 0; when every client was coherent and select() reported only sides it asked for, every kept client is still coherent |
| `Clients.Registry.ServeWriteAt` | src/clients.c:404-437 | serving one client of clients_write changes only that client, as its pass says |
| `Clients.Registry.ServeAllWrite` | src/clients.c:402-438 | every client is served in list order; the kept ones are, in order, those not removed |
| `Clients.Registry.Write` | src/clients.c:397-441 | clients_write: the list becomes the clients not removed, in order, each changed exactly as Relay.WritePass says; returns 0; when every client was coherent and select() reported only sides it asked for, every kept client is still coherent |
| `RelayDefects.LeakAfterDrain` | src/clients.c:383-394 | a five-event run leaves both sides CLOSE_LINGER without removal, after which no event is ever admitted: the client leaks |
| `RelayDefects.Lingering` | src/clients.c:237-285 | a client both of whose sides are CLOSE_LINGER is in neither the read nor the write set |
| `RelayDefects.LeakRun` | src/clients.c:424-428 | the drain of a CLOSE_PENDING side whose peer is CLOSE_LINGER ends in CLOSE_LINGER on both sides |
| `RelayDefects.CloseDropsQueuedBytes` | src/clients.c:309-325 | end of stream on a FIN_PENDING side whose peer is CLOSE_LINGER removes the client with a byte still queued and never sent |
| `RelayDefects.CloseLingerNeverSends` | src/clients.c:266-273 | a CLOSE_LINGER side is never sent anything again and stays CLOSE_LINGER |
| `RelayDefects.ReplyAfterHalfCloseStranded` | src/clients.c:309 | a reply that arrives after side 0 half-closed is queued for side 0 and is never sent on any continuation |
| `HalfClose.ShutIfDrained` | src/clients.c:313-319 | the intended shutdown: side i is shut down exactly once, as soon as the other side saw end of stream and nothing is queued for i; nothing else changes |
| `HalfClose.Receive` | src/clients.c:355-369 | the intended recv: removal exactly on failure, or on end of stream that finishes both directions; bytes are appended in order to the other side's queue; end of stream only marks its own side |
| `HalfClose.Send` | src/clients.c:411-429 | the intended send: removal exactly on failure or when both directions are finished; the unsent tail stays queued, transferred grows by the bytes sent, and the other side is untouched |
| `HalfClose.HalfClosedReplyDelivered` | src/clients.c:266-273 | after side i half-closed, a reply from the other side is queued for i and keeps i in the write set, and one send of the whole queue delivers it without removing the client |
| `HalfClose.Step` | src/clients.c:335-441 | the corrected relay step keeps its invariant: a side is shut down exactly when the peer saw end of stream and nothing is queued for it |
| `HalfClose.StepConserves` | src/clients.c:355-429 | the corrected relay conserves bytes exactly as the relay as written does |
| `HalfClose.RemovalDrained` | src/clients.c:363-365 | the corrected relay removes a client only after a failed syscall or when both directions are finished, nothing is queued and each side was shut down once |
| `HalfClose.KeptStaysDispatchable` | src/clients.c:426-428 | a client the corrected relay keeps is unfinished and still in some read or write set |
| `HalfClose.AlwaysDispatchable` | src/clients.c:229-288 | an unfinished client of the corrected relay always wants some socket read or written |
| `Hex.Decode` | src/options.c:136-143 | an even-length hex string gives half as many bytes, byte k read from digits 2k and 2k+1 |
| `Hex.DecodeEncode` | src/options.c:138-143 | decoding the upper-case spelling of any bytes gives the bytes back |
| `Hex.EncodeDecode` | src/options.c:138-143 | spelling the bytes an upper-case even-length hex string decodes to gives the string back |
| `Hex.ParseHexString` | src/options.c:117-146 | -1 exactly when the string or buffer is missing; 1 exactly for an odd length, with the buffer untouched; otherwise 0 and the buffer holds Decode of the string, with length_ bytes |
| `Options.With` | src/options.c:61-62 | setting string field k changes that field only |
| `Options.Named` | src/options.c:154-160 | the defaults with progname taken from argv[0] |
| `Options.Recognize` | src/options.c:170-187 | every recognised flag starts with '-' |
| `Options.Next` | src/options.c:166-187 | an accepted argument moves the scan on by one, or by two when it takes a value that exists and does not start with '-' |
| `Options.Lex` | src/options.c:164-188 | the scan from position i ends with 0, -1, -3 or a position i.. of argv |
| `Options.Finish` | src/options.c:190-197 | the post-scan defaults leave a non-empty log-target list and touch no string option |
| `Options.ParseArgs` | src/options.c:149-200 | options_parse returns 0, -1, -3 or a position 1.. of argv, and progname is argv[0] |
| `Options.ProgramNameKept` | src/options.c:158 | no option changes the program name |
| `Options.SkipValues` | src/options.c:59-60 | an argument consumed as a value is never a flag, so skipping it keeps the values of every flag |
| `Options.SkipOccurs` | src/options.c:59-60 | skipping a consumed value keeps which flags occur |
| `Options.LastWins` | src/options.c:61-62 | after a successful scan each string option holds the value of its last occurrence, or its earlier value when it does not occur |
| `Options.LogsInOrder` | src/options.c:103-115 | after a successful scan the log targets are the earlier ones followed by every -L value in order |
| `Options.SwitchesSet` | src/options.c:174-180 | after a successful scan debug is on iff -U occurs, and daemonize stays on iff -D does not occur |
| `Options.StopFlagFails` | src/options.c:170-173 | -h, -v or an unknown flag starting with '-' at position j makes the parse fail with a code no later than j |
| `Options.ErrorCause` | src/options.c:186-187 | a positive code is the position of an unknown argument or of a value-taking flag without a usable value; -1 and -3 come only from -h and -v |
| `Options.ParseKeys` | src/options.c:149-200 | after a successful options_parse each string option holds its last value, or its default |
| `Options.ParseSwitches` | src/options.c:149-200 | after a successful options_parse debug is on iff -U occurs, and daemonize is on iff neither -D nor -U occurs |
| `Options.ParseLogs` | src/options.c:149-200 | after a successful options_parse the log targets are the -L values in order, then stdout:5 when debugging, or the syslog target when that leaves none |
| `Options.FinishLogs` | src/options.c:190-197 | the post-scan defaults append stdout:5 when debugging, then give an empty list the syslog target |
| `Options.Options.Default` | src/options.c:210-229 | options_default: daemonize on, debug off, config file /etc/tcpproxy.conf, every other string option NULL, no log targets |
| `Options.Options.constructor` | src/options.c:210-229 | a new options_t holds the defaults |
| `Options.Options.Assign` | src/options.c:61-62 | one PARSE_STRING_PARAM assignment sets that field only |
| `Options.Options.Parse` | src/options.c:149-200 | options_parse leaves exactly the settings and returns exactly the code ParseArgs gives |

## Left out

- Logging, `clients_print`, `client_fd_state_to_string`, `clients_clear` and `clients_delete_element` are left out. Closing sockets and freeing a removed client are not modelled.
- `clients_remove` (src/clients.c:187-190) is not modelled. It is `clients_find` followed by an unlink in the generic list library, and slist.c is not part of this model.
- The list is a sequence, not a linked list.
  - A client removed during `clients_read` or `clients_write` is collected and unlinked after the pass.
  - The order in which clients are visited and which clients remain is the same as the C code's, because C advances `tmp` before serving a client.
  - A removed client's buffers stay in the registry's `Repr`.
- Clients.Registry.Add: the -2 returns (malloc of the client, `slist_add`) are not modelled. The list only changes once `connect()` did not fail, whereas C adds the client before `connect()` and removes it again on failure. The list that results is the same.
- Clients.Client.HandleConnect: the -2 return when a buffer cannot be allocated is not modelled.
- Clients.Registry.Read: the -1 return for a NULL list is not modelled; the methods run on an existing object. The same applies to `Clients.Registry.Write`, `Clients.Registry.Find`, `clients_read_fds` and `clients_write_fds`.
- Relay.Connect: its own contract states only that the result has two sides. Its outcome is stated by `Relay.ConnectOutcome` and `Clients.Client.HandleConnect`.
- Relay.ReadSides: its own contract states only that the result has two sides. What a pass keeps is stated by `Relay.ReadSidesCoherent` and `Relay.ReadPassCoherent`. The class is tied to it by `Clients.Client.ServeRead`. What each recv does is stated by `Relay.ReceiveOutcome`. The same holds for `Relay.ReadPass`.
- Relay.WriteSides: its own contract states only that the result has two sides. What a pass keeps is stated by `Relay.WriteSidesCoherent` and `Relay.WritePassCoherent`. The class is tied to it by `Clients.Client.SendReady` and `Clients.Client.ServeWrite`. What each send does is stated by `Relay.SendOutcome`. The same holds for `Relay.WritePass`.
- Clients.Client.Valid carries the structural invariant only, not role coherence. Coherence is promised by `Clients.Registry.Read` and `Clients.Registry.Write` under the condition that select() reported only sides the interest asked for. The main loop that calls select() is not part of this model.
- Integer widths are not modelled. `transferred_`, `write_buf_offset_`, `length_` and descriptors are unbounded integers, so the overflow of the C counter `transferred_` is not represented.
- `shutdown()` is represented only by a per-side counter of the calls made (`shutdowns`). `fd_set` is a set of integers.
- The `transferred_` counters are not initialised by `clients_add`, and C leaves them indeterminate until `handle_connect`. The model starts them at 0.
- Hex.ParseHexString: requires an even-length string to consist of hex digits, because the behaviour of `sscanf("%2X")` on other characters is not modelled. The -2 return when malloc fails is not modelled either.
- Hex.Encode is the model's own inverse of the decoder; the source has no encoder.
- Options.Options.Parse: the -1 return for a NULL `opt` and the -2 returns when `strdup` fails are not modelled.
  - `string_list.c` is not part of this model. `string_list_add` is modelled as an append that succeeds, so the `return i+1` taken when it fails is not modelled.
  - Blanking of secret arguments (`PARSE_STRING_PARAM_SEC`) is not modelled; options_parse does not use it.
- `options_parse_post`, `options_clear`, `options_print`, `options_print_usage` and `options_print_version` are left out (no behaviour, or printing and freeing only). `PARSE_INT_PARAM` and `PARSE_HEXSTRING_PARAM_SEC` are left out because options_parse does not use them.
- The listener, the TCP endpoint helpers and the main program (`src/listener.c`, `src/tcp.c`, `src/tcpproxy.c`) are not part of this model. Neither are the test programs under `contrib/`.

## Findings

The `Client` class and module `Relay` follow the code as written. Module `HalfClose` is the relay
as the program evidently intends it. Each direction closes on its own, as the half-close test in
`contrib/testclient.c` expects. A client is removed once both directions are finished and
drained, as the "removal postponed" case of src/clients.c:324 intends. The corrected properties
are proved about `HalfClose`.

| source | as written | input that shows it | evidently intended | confidence | as-written member | corrected member |
|---|---|---|---|---|---|---|
| src/clients.c:383-394 | `client_handle_pending` always returns 0. A side drained while CLOSE_PENDING becomes CLOSE_LINGER even when the other side already is CLOSE_LINGER, and nobody removes the client | connect; side 1 sends one byte; side 0 sends EOF; side 1 sends EOF; the byte is sent to side 0 | remove the client (and close its sockets) once both sides are finished | not executed; high | `RelayDefects.LeakAfterDrain` | `HalfClose.KeptStaysDispatchable` |
| src/clients.c:309-325 | end of stream on a side overwrites FIN_PENDING with CLOSE_PENDING; with the other side CLOSE_LINGER the client is removed at once, although bytes are still queued for this side | connect; side 1 sends one byte; side 1 sends EOF; side 0 sends EOF | send the queued bytes before removing the client | not executed; medium | `RelayDefects.CloseDropsQueuedBytes` | `HalfClose.RemovalDrained` |
| src/clients.c:309 | end of stream from side 0 makes side 0 CLOSE_LINGER, a role the write set never includes; later bytes from side 1 are queued for side 0 but never sent | connect; side 0 sends EOF; side 1 sends one byte | keep relaying the other direction after a half-close | not executed; medium | `RelayDefects.ReplyAfterHalfCloseStranded` | `HalfClose.HalfClosedReplyDelivered` |

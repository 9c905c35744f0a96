# Verified model of an at-most-once RPC library

The library sends every call with an increasing number (xid), resends the identical buffer
until a reply arrives, piggybacks on each request the highest xid up to which all replies were
received, and lets the server remember replies until they are acknowledged. Its README promises
exactly-once semantics over any transport. This project models the client, the server and a
network that may lose, duplicate and reorder whole messages, and proves what that promise
amounts to, for every run. It also proves the closed algorithms of the vendored googletest:
bipartite matching, globbing, simple regular expressions, UTF-8, 128-bit printing and the prime
tables.

| files | contents |
|---|---|
| `wrappers.dfy`, `rpc.dfy` | optional values; messages, error codes |
| `xid_window.dfy`, `client_core.dfy`, `rpc_client.dfy` | the client: its compressed list of received xids, its critical sections as functions, and the classes whose methods run them in place |
| `reply_window.dfy`, `rpc_server.dfy` | the server: the reply window of one client as functions, its refinement of an untrimmed history, and the class |
| `protocol.dfy` | client, server and network as a step system |
| `protocol_server.dfy`, `protocol_exactly_once.dfy`, `protocol_safety.dfy`, `protocol_limits.dfy`, `protocol_atomic.dfy` | what the server keeps alone; exactly once, end to end; the mutual invariant of clients that bind once; the exact limits, with counterexample runs; the classes agree with the steps |
| `marshall.dfy` | marshalling by position |
| `matching.dfy`, `glob.dfy`, `simple_regex.dfy`, `utf8.dfy`, `decimal128.dfy`, `prime_tables.dfy` | the algorithms of googletest |

The code that updates tables, lists and buffers is modelled by classes and loops, each method
proved equal to a function or to the property itself; the lemmas are about those functions.

## What turned out

- In every run, with any number of worker threads and binds, a callback that fires does so once,
  after exactly one run of the handler on the one request its caller ever sent, with that run's
  error and value (`ProtocolExactlyOnce.ExactlyOnceAlways`). Handlers run at most once even when
  any request whatever may arrive, sent by a client of this library or not
  (`ProtocolServer.HandlersRunAtMostOnceAlways`, `ReplyWindow.NewAtMostOnce`).
- `GotPdu` acknowledges a reply (src/rpc/rpc_client.cpp:93), takes its caller off the table (97-104)
  and completes it (114-132) in separate critical sections. When two workers are inside it, one may
  have acknowledged a reply whose caller it has not yet taken; the next call carries the
  acknowledgement, the server forgets the xid, and a late duplicate of the request is answered
  `ATMOST_ONCE_FAILURE`. The second worker takes the caller off the table for that answer, which
  carries no value, so `ExtractReply` throws and the callback never runs.
  `ProtocolLimits.NoneLostExactly` proves that no caller is lost in any run exactly when the client
  starts no bind, or one bind with a single worker. The default is two workers
  (src/include/rpc/rpc.h:20).
- A second bind before the first is answered can make xid 3 the baseline of the client's window, so
  that xid 2 counts as acknowledged. A client that has bound at most once is safe in every run
  (`ProtocolSafety.OneBindIsSafe`), and three promises hold in all runs exactly when clients bind at
  most once: both throws of `AddReply` are unreachable (`ProtocolLimits.NeverThrowsExactly`), only
  calls whose reply was processed are forgotten (`ProtocolLimits.ForgetsOnlyProcessedExactly`), and
  no request acknowledges its own xid or a later one (`ProtocolLimits.AcksAreOrderedExactly`).
- Without retransmission, a send error is found and told in two critical sections
  (src/rpc/rpc_client.cpp:194-200 and 225-231), and the second does not look at `done_`. So the
  callback fires again when the error comes after a timeout (`ClientCore.SendErrorAfterTimeout`), and
  also when the caller is still open as the error finds it and another worker delivers its reply
  before the error is told (`ClientCore.SendErrorAroundReply`). `ClientCore.SingleCompletionExactly`
  proves for every interleaving that a callback fires twice exactly when some send error is told to a
  caller already done.
- `CodePointToUtf8` is documented to turn numbers above U+10FFFF into "(Invalid Unicode ...)". The
  code does so only above 0x1FFFFF, and writes U+110000 as four bytes (`Utf8.BeyondUnicode`); zero it
  writes as the empty string. `Utf8.WrittenAsPromisedExactly` gives the exact set of numbers for which
  the comment is right, `Utf8.WrittenIsValidExactly` that for which the output is valid UTF-8.
- Both prime tables are documented to give the smallest prime above p. Below zero the on-the-fly
  table answers -1 without a search, and the sieved one searches: for p = -1 it answers 2.
  `PrimeTables.TablesAgree` proves that among the p both accept (from -1 on) this is the only disagreement.

## Model

| member | source | states |
|---|---|---|
| XidWindow.FrontIsLargestContiguous | src/rpc/rpc_client.cpp:259-281 | for every sequence of received xids, in any order and with repeats, the front is the largest k with b..k all received (b the first), and the list is sorted and holds exactly the received xids from k on |
| XidWindow.FrontIsMonotone | src/rpc/rpc_client.cpp:259-281 | the front never moves back, and moves only when its successor arrives |
| RpcClient.RpcClient.UpdateXidRep | src/rpc/rpc_client.cpp:259-281 | the insertion and compression loops compute the window function in place, for every sorted window |
| RpcClient.RpcClient.CompressWindow | src/rpc/rpc_client.cpp:274-281 | the compression loop reaches the compressed list; at each pop of the front the iterator stood behind it and inside the list |
| RpcClient.RpcClient.Call | src/rpc/rpc_client.cpp:32-67 | refuses calls before and binds after binding without any change; otherwise sends, and keeps as the new caller's buffer, a request with the next xid, the call's procedure and arguments, the client's nonces, and the window's front or 0 |
| RpcClient.RpcClient.GotPdu | src/rpc/rpc_client.cpp:88-133 | acknowledges; takes the caller off the table; tells it the reply's error and value unless it was done; only a good answer to a bind opens the client and sets the server nonce |
| RpcClient.RpcClient.TakeCaller | src/rpc/rpc_client.cpp:95-108 | takes exactly this caller off the table, and hands on the caller itself |
| RpcClient.RpcClient.CompleteCaller | src/rpc/rpc_client.cpp:114-132 | tells a caller off the table the reply, unless it was done; no other caller changes |
| RpcClient.RpcClient.OnTimerExpired | src/rpc/rpc_client.cpp:166-190 | on the caller it points to, on the table or off it, if it is not done: a retransmitting client sends that caller's buffer again; another one tells it of a timeout |
| RpcClient.RpcClient.OnSendFinished | src/rpc/rpc_client.cpp:192-237 | both its critical sections with nothing in between: for a caller on the table a retransmitting client sends its buffer again; another one tells it that error, whatever it was told before |
| RpcClient.RpcClient.FindFailed | src/rpc/rpc_client.cpp:194-223 | finds the caller on the table; a retransmitting client sends its buffer again |
| RpcClient.RpcClient.TellError | src/rpc/rpc_client.cpp:224-232 | tells the caller that was found this error, although it may be done or off the table by now |
| ClientCore.ReactKeeps | src/rpc/rpc_client.cpp:32-237 | every critical section, in any interleaving, keeps: each xid is completed at most once, and `done` says which; except a send error told to a caller already done |
| ClientCore.SingleCompletionExactly | src/rpc/rpc_client.cpp:95-232 | for every interleaving of the critical sections: no callback fires twice exactly when no send error, having found its caller on the table, is told to it after that caller is done |
| ClientCore.SendErrorAfterTimeout | src/rpc/rpc_client.cpp:175-232 | a run in which a callback is told of a timeout and then of a send error |
| ClientCore.SendErrorAroundReply | src/rpc/rpc_client.cpp:95-232 | a run in which a send error finds an open caller and is told to it after its reply was delivered |
| ClientCore.NeverToldTwiceExactly | src/rpc/rpc_client.cpp:175-232 | no interleaving fires a callback twice exactly when the nonce is nonzero or no send fails |
| ReplyWindow.CheckLookup | src/rpc/rpc_server.cpp:135-179 | the answer, the new watermark, the order of the list, and which entries stay, go and come |
| ReplyWindow.TrimmedWindowRefinesHistory | src/rpc/rpc_server.cpp:135-197 | for every sequence of operations by any clients the trimmed lists answer as a never-trimmed history does, and stay strictly ascending above their watermarks |
| ReplyWindow.NewAtMostOnce | src/rpc/rpc_server.cpp:135-197 | for arbitrary xids and acknowledgements, no request of a client is called NEW twice |
| ReplyWindow.ForgottenIffAcknowledged | src/rpc/rpc_server.cpp:139-158 | FORGOTTEN is answered exactly when the xid is at or below the largest acknowledgement that client ever sent |
| RpcServer.Server.CheckDuplicateAndUpdate | src/rpc/rpc_server.cpp:135-179 | updates one client's list and watermark as the window function says, and no other client's |
| RpcServer.Server.ScanWindow | src/rpc/rpc_server.cpp:160-178 | the loop over the remembered requests finds or inserts in order |
| RpcServer.Server.TrimWindow | src/rpc/rpc_server.cpp:144-153 | the scope guard's loop drops acknowledged entries from the front |
| RpcServer.Server.AddReply | src/rpc/rpc_server.cpp:181-197 | stores the reply under its entry, or throws and changes nothing; other clients are untouched |
| RpcServer.Server.Dispatch | src/rpc/rpc_server.cpp:28-115 | the answers to a client of another instance, for an unknown procedure and to a client without a nonce (its handler's own error and value), with both tables unchanged; for other clients what one dispatch does to one slot, and no other client's slot |
| RpcServer.DispatchMeans | src/rpc/rpc_server.cpp:61-115 | for a client with a nonce: forgotten at or below the watermark, silence while in progress, the stored reply, or else the handler's own error and value, which is what is remembered; every other xid above the watermark is remembered as before |
| RpcServer.RepeatIsAnsweredFromMemory | src/rpc/rpc_server.cpp:61-115 | an undisturbed dispatch of a registered procedure throws only when its handler does; a repeat changes nothing, runs no handler, and gets the same reply, or none after a handler that threw |
| ProtocolServer.HandlersRunAtMostOnceAlways | src/rpc/rpc_server.cpp:61-88 | in every run with concurrent dispatches of arbitrary requests (any xid, any acknowledgement, sent or not) a handler runs at most once per client (nonzero nonce) and xid |
| ProtocolServer.ServerKeeps | src/rpc/rpc_server.cpp:61-197 | every step keeps the server's invariant: stored replies are handlers' answers, jobs have distinct settled xids |
| ProtocolSafety.ActKeeps | src/rpc/rpc_client.cpp:32-237 | while a client has bound at most once, every step keeps the mutual invariant of client window, requests, reply window, jobs, replies and callers |
| ProtocolExactlyOnce.CallbackKeeps | src/rpc/rpc_client.cpp:88-133 | every step keeps: callers complete at most once, what is on the network is the callers' own buffers, and every fired callback was told a reply that a handler gave |
| ProtocolExactlyOnce.ExactlyOnceAlways | src/rpc/rpc_server.cpp:77-105 | in every run of every configuration a callback fires at most once, after exactly one run of the handler, on the only request ever sent with its xid (its caller's own buffer, with the procedure and arguments that the call was given), with that run's error and value |
| ProtocolSafety.OneBindIsSafe | src/rpc/rpc_client.cpp:38-60 | in every run, for a client that has bound at most once: only processed xids are forgotten, acknowledgements are ordered, no dispatch throws |
| ProtocolSafety.ClassifyJobs | src/rpc/rpc_server.cpp:144-153 | an in-progress entry is never trimmed by a concurrent dispatch |
| ProtocolSafety.ClassifyAck | src/rpc/rpc_server.cpp:139-141 | the watermark never passes the client's front, so all it covers was received |
| ProtocolSafety.UnsentAboveFront | src/rpc/rpc_client.cpp:45-60 | a request's acknowledgement lies strictly below its own xid |
| ProtocolSafety.FinishInvKeeps | src/rpc/rpc_server.cpp:181-197 | recording a reply always finds its entry |
| ProtocolExactlyOnce.ResendIsDuplicate | src/rpc/rpc_client.cpp:175-223 | to the network a retransmission is a duplicate: it adds exactly the one request of that xid to what was sent, and nothing when no open call asks for it |
| ProtocolExactlyOnce.RetransmitsAlways | src/rpc/rpc_client.cpp:175-223 | in every run: when the timer of a call that was sent and not completed fires, or a send of one on the table fails, its one request is put on the network once more, and nothing else happens |
| ProtocolExactlyOnce.SentIsRequests | src/rpc/rpc_client.cpp:59-62 | in every run the network holds exactly what was ever sent |
| ProtocolSafety.SerialAlways | src/rpc/rpc_client.cpp:88-133 | with one worker, a client that has bound at most once never drops a caller without its callback |
| ProtocolLimits.TwoWorkersLose | src/rpc/rpc_client.cpp:88-133 | for every configuration with two workers, a concrete run that loses a callback |
| ProtocolLimits.TwoBindsBreak | src/rpc/rpc_client.cpp:38-57 | for every configuration with two binds, a run in which AddReply throws, one that forgets a call without a reply, and one that loses a callback |
| ProtocolLimits.TwoBindsDisorder | src/rpc/rpc_client.cpp:38-57 | for every configuration with two binds, a run that sends a request acknowledging an xid above its own |
| ProtocolLimits.NoneLostExactly | src/rpc/rpc_client.cpp:88-133 | no caller is lost in any run if and only if there is no bind, or one bind and one worker |
| ProtocolLimits.NeverThrowsExactly | src/rpc/rpc_server.cpp:181-197 | AddReply never throws in any run if and only if clients bind at most once |
| ProtocolLimits.ForgetsOnlyProcessedExactly | src/rpc/rpc_server.cpp:139-158 | in all runs only xids whose reply the client has processed are forgotten, if and only if clients bind at most once |
| ProtocolLimits.AcksAreOrderedExactly | src/rpc/rpc_client.cpp:45-60 | in all runs every request acknowledges less than its own xid, and the watermark stays at or below the client's front, if and only if clients bind at most once |
| ProtocolAtomic.DispatchIsItsSteps | src/rpc/rpc_server.cpp:61-115 | a dispatch that is not interrupted does what its steps of the system do: the same window, reply, handler call and throw, and nothing else |
| ProtocolAtomic.GotPduIsItsSteps | src/rpc/rpc_client.cpp:88-133 | the same for the three steps of receiving a reply |
| ProtocolAtomic.CallIsItsSteps | src/rpc/rpc_client.cpp:38-62 | the same for the two steps of a call: the request has the call's procedure and arguments |
| Marshalling.RoundTrip | src/include/rpc/marshall.h:36-83 | reading values and headers in the order they were written gives back exactly what was written |
| Marshalling.KeysDistinct | src/include/rpc/marshall.h:38-41 | position keys are injective and never equal a header's key |
| Marshalling.HeadersRoundTrip | src/include/rpc/rpc.h:121-144 | a header read from the JSON of a header is that header |
| Marshalling.ErrorCodes | src/include/rpc/rpc.h:22-41 | the numbers of the errors on the wire, one for each |
| Marshalling.Marshall.Put | src/rpc/marshall.cpp:7-15 | a value goes under the next position in decimal, a header under its own key with these field names, and nothing else changes |
| Marshalling.Unmarshall.Get | src/rpc/marshall.cpp:17-25 | reads the value at the position, or the header whose fields are all there and numbers; and reports the throw exactly when something is missing or of the wrong kind |
| Matching.MaxBipartiteMatchState.TryAugment | third-party/googletest/googlemock/src/gmock-matchers.cc:184-208 | terminates; success matches exactly one more left node, unmatches nothing and leaves seen and closed nodes alone; failure changes nothing and leaves a closed trap of matched nodes |
| Matching.MaxBipartiteMatchState.Compute | third-party/googletest/googlemock/src/gmock-matchers.cc:132-163 | one try per left node ends in a consistent flow with a certificate that it is maximum |
| Matching.CertificateIsMaximum | third-party/googletest/googlemock/src/gmock-matchers.cc:135-146 | no matching of the graph has more edges than a flow with that certificate |
| Matching.FindMaxBipartiteMatching | third-party/googletest/googlemock/src/gmock-matchers.cc:228-230 | the returned pairs are a matching of the graph, and no matching has more edges |
| Matching.FindPairing | third-party/googletest/googlemock/src/gmock-matchers.cc:437-476 | true if and only if some assignment covers the required matchers and elements |
| Glob.PatternMatchesString | third-party/googletest/googletest/src/gtest.cc:704-749 | restarting only from the last star decides exactly the recursive meaning of the pattern, and the loop ends |
| Glob.NewStarSubsumes | third-party/googletest/googletest/src/gtest.cc:730-737 | why an earlier star may be given up when a new one is reached |
| SimpleRegex.ValidateRegex | third-party/googletest/googletest/src/gtest-port.cc:807-858 | accepts exactly the written forms of well-formed expressions |
| SimpleRegex.ValidEscapes | third-party/googletest/googletest/src/gtest-port.cc:760-762 | a character may be escaped exactly when it is one of the eleven class and control letters, or printable and neither a letter nor a digit |
| SimpleRegex.MatchRegexAnywhere | third-party/googletest/googletest/src/gtest-port.cc:925-935 | for every accepted expression: true if and only if some substring is in its language, at the anchored ends |
| SimpleRegex.MatchRegexAtHead | third-party/googletest/googletest/src/gtest-port.cc:891-915 | true if and only if some prefix is in the language of the rest of the expression; the mutual recursion ends |
| SimpleRegex.MatchRepetitionAndRegexAtHead | third-party/googletest/googletest/src/gtest-port.cc:867-886 | true if and only if some permitted number of repetitions leaves a match of the rest |
| SimpleRegex.AtomClasses | third-party/googletest/googletest/src/gtest-port.cc:748-796 | the digits and white space by their members, the capitals as complements, the dot |
| SimpleRegex.WordClass | third-party/googletest/googletest/src/gtest-port.cc:754-757 | the word characters by their members |
| SimpleRegex.ControlEscapes | third-party/googletest/googletest/src/gtest-port.cc:773-786 | each control escape is one character, by its code |
| SimpleRegex.Punctuation | third-party/googletest/googletest/src/gtest-port.cc:749-751 | the punctuation is what is printable and no letter, digit or space |
| SimpleRegex.OtherAtoms | third-party/googletest/googletest/src/gtest-port.cc:760-796 | any other escape is valid exactly when it is punctuation, and means itself |
| Utf8.IsValidUTF8 | third-party/googletest/googletest/src/gtest-printers.cc:483-514 | accepts exactly the concatenations of encoded scalar values (RFC 3629) |
| Utf8.EncodeAllInjective | third-party/googletest/googletest/src/gtest.cc:1990-2016 | no byte string encodes two different sequences of scalar values |
| Utf8.StepEncode | third-party/googletest/googletest/src/gtest-printers.cc:486-511 | decoding undoes encoding, and one round of the validator takes exactly the encoding of a scalar value and nothing of any other number's |
| Utf8.CodePointToUtf8 | third-party/googletest/googletest/src/gtest.cc:1990-2016 | the bytes written into the buffer are the encoding, the empty string for zero, the invalid text above 21 bits |
| Utf8.WrittenAsPromisedExactly | third-party/googletest/googletest/src/gtest.cc:1985-1993 | the output is the encoding up to U+10FFFF and the invalid text beyond, as documented, exactly for the numbers other than zero and those from 0x110000 to 0x1FFFFF |
| Utf8.InvalidTextExactly | third-party/googletest/googletest/src/gtest.cc:1990-1993 | the invalid text is written exactly for the numbers above 21 bits |
| Utf8.InvalidTextReads | third-party/googletest/googletest/src/gtest.cc:1991-1993 | the invalid text is the words with the number in hexadecimal: digits 0 to 9 and A to F, of that value, without a leading zero |
| Utf8.HexMeans | third-party/googletest/googletest/src/gtest.cc:2196-2200 | a hexadecimal numeral has only digits, that value, and no leading zero |
| Utf8.BeyondUnicode | third-party/googletest/googletest/src/gtest.cc:1985-1993 | the first number beyond Unicode is written as four bytes |
| Utf8.WrittenIsValidExactly | third-party/googletest/googletest/src/gtest.cc:1987-1993 | the output is valid if and only if the number is a scalar value or above 21 bits |
| Decimal128.PrintTo | third-party/googletest/googletest/src/gtest-printers.cc:291-323 | prints the decimal numeral of every 128-bit number |
| Decimal128.DivideWords | third-party/googletest/googletest/src/gtest-printers.cc:308-319 | two 64-bit words are divided by ten exactly although every operation wraps around at 64 bits |
| Decimal128.FillBackwards | third-party/googletest/googletest/src/gtest-printers.cc:297-321 | the loop writes the digits from the back and stays inside its forty bytes |
| Decimal128.TightAtAllOnes | third-party/googletest/googletest/src/gtest-printers.cc:316-317 | the low word can reach the largest 64-bit number |
| Decimal128.DecimalMeans | third-party/googletest/googletest/src/gtest-printers.cc:291-323 | a numeral has only digits, that value, and no leading zero |
| Decimal128.PrintSigned | third-party/googletest/googletest/src/gtest-printers.cc:324-331 | the signed printer is right for every number, the least one included |
| PrimeTables.IsPrimeOnTheFly | third-party/googletest/googletest/samples/prime_tables.h:55-64 | trial division up to the square root decides primality |
| PrimeTables.GetNextPrimeOnTheFly | third-party/googletest/googletest/samples/prime_tables.h:66-72 | the unbounded search ends and finds the smallest larger prime |
| PrimeTables.PreCalculatedPrimeTable.CalculatePrimesUpTo | third-party/googletest/googletest/samples/prime_tables.h:100-116 | the sieve leaves exactly the primes |
| PrimeTables.PreCalculatedPrimeTable.StrikeMultiples | third-party/googletest/googletest/samples/prime_tables.h:109-114 | starting at the square strikes all that one more prime strikes |
| PrimeTables.PreCalculatedPrimeTable.GetNextPrime | third-party/googletest/googletest/samples/prime_tables.h:91-97 | the smallest larger prime, or -1 exactly when none fits the table |
| PrimeTables.TablesAgree | third-party/googletest/googletest/samples/prime_tables.h:52-97 | both tables give the same next prime unless it lies beyond the sieved table, exactly when p is not negative or the table has no prime; for p = -1 the answers are -1 and 2 |

## Left out

- Socket, Asio, threads, reconnects and byte framing: the network is a set of whole messages that may arrive any number of times, in any order, or never; an unknown procedure makes `Dispatch` throw before it touches the tables, which to the client is a lost request. A handler that throws is, in the step system, a job that is never run or never finished.
- Lifetimes of pointers: the source frees a caller when its reply has been delivered, while timers and send callbacks may still point to it; here it stays alive and done. The pointer to a stored reply that the DONE branch sends after the lock is released is modelled as the value it points to at that moment.
- Client nonces: random numbers assumed distinct; a client without retransmission (nonce 0) is covered in `client_core.dfy` and in `Dispatch`, not in the step system.
- Numbers: xids, procedure numbers and nonces are unbounded; wrap-around after 2^64 calls is not modelled.
- Server restart and `OLDSERVER_FAILURE`: one server instance; `Dispatch` has the branch, and the system proves that it is never taken.
- Liveness: timers are not armed again after a resend (src/rpc/rpc_client.cpp:182-188), so only safety is stated.
- The retry of a failed bind from its callback: the step system lets a client start another bind at any time, up to the configured number.
- JSON as text: a document is a map, and printing followed by parsing is the identity; `Marshall::Reset` is not modelled.
- SimpleRegex.MatchRegexAnywhere: the subject is shorter than the largest `size_t`, beyond which the source leaves the result undefined.
- PrimeTables.PreCalculatedPrimeTable: `max` is at least one, because the constructor writes entry 1 of the table, and `GetNextPrime` starts at -1 or above, because it reads entry p + 1; `int` overflow of `i * i` is not modelled.
- Diagnostic output of `FindPairing`, `VerifyMatchMatrix`, `NextGraph`, the failure messages of `ValidateRegex`, and the full-match wrapping of `RE::Init`: text and plumbing.
- Fiber pools, scope-guard macros, death tests, reporters and flag parsing: no state worth proving.

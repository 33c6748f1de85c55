# A verified model of libnghttp2_asio

libnghttp2_asio is a C++ HTTP/2 library over Boost.Asio and nghttp2. This project models its stateful and algorithmic
core in Dafny and proves what that core keeps over every input and every run:

| area | modules |
|---|---|
| write pump and callback guard of the client session | `Nghttp2`, `ClientPump` (step system), `ClientSession` (class) |
| write pump of the server handler and connection | `ServerPump` (step system), `ServerConnection` (classes) |
| path cleaning (`path_join`) | `PathClean` (meaning), `PathShape` (shape of results), `PathResolve` (with a base: reference resolution), `PathBuffer` (the in-place buffer) |
| URL parser | `UrlParser` (machines and loops), `UrlLayout` (layout of results), `UrlWidth` (what storing in 16 bits does), `UrlRoundTrip` (parsing undoes printing), `UrlGrammar` (exactly what is accepted), `UrlClasses` (the character classes against the table and RFC 3986) |
| block allocator and string concatenation | `Heap`, `Allocator` (classes), `ConcatString` |
| routing, percent coding, `split_path` | `Percent`, `ServeMux` |
| response life cycle | `Response` (step system), `ResponseImpl` (class) |
| stream life time | `StreamMap` (step system and class) |
| calendar arithmetic | `Timegm` |
| what all share | `Basics`, `Text` (byte strings), `Rfc3986` (the RFC's character sets, by code) |

`dafny verify dfyconfig.toml` checks everything.

## How it is built

Code that updates fields, buffers or arrays step by step is a class or a method with loops, and each method is tied by
its `ensures` to a function over values (`Abs() == ClientPump.DoWrite(old(Abs()), script)`,
`buf[..len] == Join(...)`). The theorems are about those functions: invariants of every step, safety of every run,
refinement of an independent definition, round trips.

nghttp2 is an oracle. A step of a pump carries a script of what `nghttp2_session_mem_send` will answer (an error,
nothing, or a chunk of 1 to 65536 bytes), which API calls the user makes from the callbacks it runs, and what the
session then has to send and wants. Scripts are arbitrary, so a theorem about every script is a theorem about every
behaviour of nghttp2 and of the user, with one assumption about nghttp2: `mem_send` returns nothing only when nothing is
sendable. Sockets and timers are events that complete with success or failure.

The source's own assertions (`enter_callback`, `leave_callback`, `eat_dir`, `assert(p.second)`, "Unexpected state", port
overflow) are `assert` statements in the methods, so that verification shows they never fail.

In several proofs a recursive function is handed to a lemma as a function value that is known only by what one more
character or one more turn does to it (`UrlParser.IsScan`, `UrlParser.IsHost`, `PathBuffer.IsWalk`,
`Timegm.IsCalendar`). This only keeps proofs small; the main theorems are stated about the functions themselves.

## Where the code and its documentation or intent differ

- `serve_mux::handle` returns true without installing the callback when an implicit redirect already sits at the key
  (`ServeMux.InstallsExactlyWhenFree`, `ServeMux.AcceptedButNotInstalled`).
- In a caller's terms, an accepted pattern is not installed if and only if a call for the subtree below it was accepted
  before (`ServeMux.NotInstalledExactly`).
- A normalising redirect may lead to another host: for `/.//b` the code answers `Location: //b`, a network-path
  reference by section 4.2 of RFC 3986. This happens if and only if reading the path leaves an empty segment in the
  first place (`ServeMux.LocationLeavesHost`, `PathShape.CleanLeavesRunFirst`, `PathShape.CleanToDoubleSlash`); from
  every other target redirects lead to the destination (`ServeMux.RedirectsReachDestination`). The Location of an
  implicit redirect is not encoded, so a `#` in the path cuts it off (`ServeMux.FollowImplicit`).
- Path cleaning is not idempotent: a slash run after `./` or `../` is kept (`PathShape.CleanNotIdempotent`). One
  application suffices if and only if reading the path, with `..` taking segments back, leaves no empty segment
  (`PathShape.CleanIdempotentExactly`, a test of the input alone); two always suffice.
- `path_join` with a base resolves references as section 5.2 of RFC 3986 does, slash runs dropped, except that a relative
  path made of nothing but `.` segments keeps the base's file name: `.` against `/a/b` gives `/a/b`, not `/a/`
  (`PathResolve.JoinIsResolution`, an if-and-only-if for every base that lib/http2.h:131-135 allows).
- Of the URLs of RFC 3986 the parser takes those with a scheme of letters only, a host name of letters, digits, hyphens
  and dots, a port of at least one digit and at most 65535, and a path or a query before any fragment
  (`UrlClasses.RfcUrlOk`, an if-and-only-if). It also takes more than the RFC, such as a lone `%` or a further `#` in a
  fragment; `UrlGrammar.AcceptsExactly` says what it takes altogether.
- `nghttp2_timegm_without_yday` counts days wrongly across some year ends up to year 0, because C division truncates;
  `Timegm.NextDayExactly` says after which days and by how much. A date is numbered right if and only if its year is
  past 0 or follows a leap year (`Timegm.NumberedRight`).
- The URL parser stores offsets and lengths in 16 bits. A well-formed URL of any length is parsed to its true slices if
  and only if every true offset and length is below 65536, those of the whole authority included
  (`UrlWidth.ParseExact`). Otherwise a path of 65536 bytes is accepted and recorded as empty
  (`UrlRoundTrip.LongPathWraps`), and an authority is cut so that a malformed one is accepted
  (`UrlRoundTrip.LongAuthorityCut`, `UrlRoundTrip.LongAuthorityMalformed`).
- `hex_to_uint` is documented to return 256 for characters that are not hex digits. It does so exactly past `z`, so the
  header is met there and at hex digits and nowhere else (`Percent.HexToUintExactly`); `G` gives 16
  (`Percent.HexToUintAtG`). Its callers check first.

## Model

| member | source | states |
|---|---|---|
| `ClientPump.EveryRunIsQuiet` | lib/asio_client_session_impl.cc:127-143 | In every state reachable from `connected`, under any interleaving of completions, timers and API calls made inside or outside callbacks: completed writes ++ buffer ++ parked chunk is all that `mem_send` returned, in order; the buffer fits 64 KiB; at most one write is outstanding; the guard assertions hold; `mem_send` is never called with a chunk parked; without a write under way nothing sendable is left behind; a stop for want of work leaves nothing unsent; a session that has not stopped has a read under way; the connect callback has run once |
| `ClientPump.StepKeeps` | lib/asio_client_session_impl.cc:620-738 | Every event keeps that invariant, and none but its own completion changes the buffer or the parked chunk of a write under way |
| `ClientPump.StepListens` | lib/asio_client_session_impl.cc:629-661 | Every event that ends a read begins the next one or stops the session; no other event ends it |
| `ClientPump.StepPumps` | lib/asio_client_session_impl.cc:590-737 | After a handled read, a finished write, an API call nghttp2 took or a ping, a running session without a write under way has taken the chunks `mem_send` had ready, in order, until there were no more, the buffer was full or it failed; with a write under way nghttp2 has what it was given and its chunks wait for the completion |
| `ClientPump.FailureStops` | lib/asio_client_session_impl.cc:629-737 | A failed read or write, a read nghttp2 does not take whole and an expired deadline stop the session; a failed write completes nothing; each is reported to the user, except by a stopped session and for a read that fails when nothing is left to do |
| `ClientPump.PingOnlyWhenIdle` | lib/asio_client_session_impl.cc:114-125 | A ping timer that was aborted, finds the session stopped or finds that it was not idle changes nothing |
| `ClientPump.ConnectedIsQuiet` | lib/asio_client_session_impl.cc:127-143 | `connected`, including what the user does in the connect callback, establishes all of that: the first read is under way unless the first write has stopped the session |
| `ClientPump.PumpKeeps` | lib/asio_client_session_impl.cc:682-709 | The loop around `mem_send` accounts for every byte, parks a chunk only behind a nonempty buffer, and ends with an empty buffer only if nothing is sendable |
| `ClientPump.PumpConsumes` | lib/asio_client_session_impl.cc:682-709 | The loop takes the answers of `mem_send` one by one, all of their bytes, until one is no chunk, the chunks no longer fit the buffer or there is no answer left; it fails exactly if the last one taken is an error |
| `ClientPump.DoWriteKeeps` | lib/asio_client_session_impl.cc:664-738 | From any settled state `do_write` loses no wakeup; while stopped or writing it changes nothing |
| `ClientPump.BlockedCall` | lib/asio_client_session_impl.cc:405-443 | An API call made inside a callback, during a write or after stop changes only the nghttp2 session; that it does reach, unless it is refused or, after stop, is not `write_trailer` |
| `ClientPump.BlockedCalls` | lib/asio_client_session_impl.cc:590-618 | So does any sequence of such calls: re-entrant users cannot re-enter the pump |
| `ClientPump.ApiCallKeeps` | lib/asio_client_session_impl.cc:562-594 | An API call outside callbacks leaves the session with what it queued on its way |
| `ClientPump.RunCallsKeeps` | lib/asio_client_session_impl.cc:590-594 | So does a whole user callback run outside the guard |
| `ClientPump.OnReadKeeps` | lib/asio_client_session_impl.cc:629-661 | The read handler keeps the invariant on success, short reads and errors, and does not touch a write under way |
| `ClientPump.OnWriteKeeps` | lib/asio_client_session_impl.cc:726-737 | The write handler moves the buffer to the completed bytes and pumps again without loss |
| `ClientPump.StopsWhenDone` | lib/asio_client_session_impl.cc:653-716 | After a successful read or write a running session stops for want of work exactly when it has not failed, no write is under way and nghttp2 wants neither to read nor to write; otherwise reading goes on: a handled read begins the next, a handled write leaves the read under way alone |
| `ClientSession.Session.constructor` | lib/asio_client_session_impl.cc:41-56 | The new session is the empty state |
| `ClientSession.Session.Connected` | lib/asio_client_session_impl.cc:127-143 | Refines the initial state of the step system, connect callback included, and establishes the invariant; unless it has stopped the session is reading, and the connect callback has run once |
| `ClientSession.Session.EnterCallback` | lib/asio_client_session_impl.cc:610-613 | Enters the guard; its assertion holds at every call |
| `ClientSession.Session.LeaveCallback` | lib/asio_client_session_impl.cc:615-618 | Leaves the guard; its assertion holds at every call |
| `ClientSession.Session.Stop` | lib/asio_client_session_impl.cc:740-749 | Stops once; when called for want of work nothing is unsent |
| `ClientSession.Session.ShouldStop` | lib/asio_client_session_impl.cc:596-599 | True exactly when no write is under way and nghttp2 wants neither to read nor to write |
| `ClientSession.Session.Append` | lib/asio_client_session_impl.cc:673-680 | The copy into the 64 KiB buffer appends exactly the chunk and stays inside |
| `ClientSession.Session.ApiCall` | lib/asio_client_session_impl.cc:405-586 | `submit`, `write_trailer`, `cancel`, `resume` and `shutdown` refine the step system, re-entrancy included |
| `ClientSession.Session.SignalWrite` | lib/asio_client_session_impl.cc:590-594 | Writes unless inside a callback |
| `ClientSession.Session.DoWrite` | lib/asio_client_session_impl.cc:664-738 | The in-place `do_write` refines the step system |
| `ClientSession.Session.Pump` | lib/asio_client_session_impl.cc:685-708 | The packing loop refines the recursive pump |
| `ClientSession.Session.OnRead` | lib/asio_client_session_impl.cc:629-661 | The read handler refines the step system and keeps the invariant |
| `ClientSession.Session.OnWrite` | lib/asio_client_session_impl.cc:726-737 | The write handler refines the step system and keeps the invariant |
| `ClientSession.Session.OnPing` | lib/asio_client_session_impl.cc:114-125 | The ping timer refines the step system and keeps the invariant |
| `ClientSession.Session.OnDeadline` | lib/asio_client_session_impl.cc:89-104 | The deadline timer refines the step system and keeps the invariant |
| `ServerPump.EveryRunIsQuiet` | lib/asio_server_connection.h:88-214 | In every reachable state of a connection: at most one write, buffers within 64 KiB, guard assertions hold, no `mem_send` over a parked chunk, no stop for want of work with bytes unsent; while running a read is under way, completed ++ in flight ++ parked is all `mem_send` returned, and once an event has been a handled read whatever is sendable is being written or has an `initiate_write` posted |
| `ServerPump.StepKeeps` | lib/asio_server_connection.h:131-225 | Every event keeps that invariant, also after stop |
| `ServerPump.StepListens` | lib/asio_server_connection.h:131-165 | Every event that ends a read begins the next one or stops the connection |
| `ServerPump.StepPumps` | lib/asio_server_connection.h:136-214 | A handled read, a finished write and a posted write take the chunks `mem_send` has ready, in order, until there are no more, the buffer is full or it fails, unless another write is under way; a posted write is no longer posted; a failure stops the connection |
| `ServerPump.FailureStops` | lib/asio_server_connection.h:101-225 | A failed read or write, a read nghttp2 refuses and an expired deadline stop the connection and complete no write; a stopped connection stays stopped |
| `ServerPump.UserCallKeeps` | lib/asio_server_http2_handler.cc:322-420 | A call outside callbacks that nghttp2 takes leaves an `initiate_write` posted; a refused one changes nothing |
| `ServerPump.WriteUntouched` | lib/asio_server_connection.h:167-208 | No event but its own completion changes the bytes of a write under way or the parked chunk |
| `ServerPump.InsideCalls` | lib/asio_server_http2_handler.cc:399-430 | Calls made inside a callback change only the nghttp2 session: no write is posted |
| `ServerPump.FillKeeps` | lib/asio_server_http2_handler.h:127-148 | The loop puts all that `mem_send` returns, in order, in the buffer or the parked chunk, and leaves the buffer empty only if nothing is sendable |
| `ServerPump.FillConsumes` | lib/asio_server_http2_handler.h:127-148 | The loop takes the answers of `mem_send` one by one, all of their bytes, until one is no chunk, the chunks no longer fit the buffer or there is no answer left; it fails exactly if the last one taken is an error |
| `ServerPump.OnWriteKeeps` | lib/asio_server_http2_handler.h:112-151 | `on_write` sends the chunk parked earlier first, and accounts for every byte |
| `ServerPump.DoWriteKeeps` | lib/asio_server_connection.h:167-214 | `do_write` keeps the invariant from any settled state, stopped or not |
| `ServerPump.HandleReadKeeps` | lib/asio_server_connection.h:136-164 | The read handler keeps the invariant and does not touch a write under way |
| `ServerPump.HandleWrittenKeeps` | lib/asio_server_connection.h:199-208 | The write handler keeps the invariant |
| `ServerPump.StopsWhenDone` | lib/asio_server_connection.h:150-189 | After a successful read or write, with no failure of `mem_send`, a running connection stops exactly when no write is under way and nghttp2 wants neither to read nor to write; otherwise reading goes on: a handled read begins the next, a handled write leaves the read under way alone |
| `ServerConnection.Http2Handler.SignalWrite` | lib/asio_server_http2_handler.cc:414-420 | At most one `initiate_write` is posted, none inside callbacks |
| `ServerConnection.Http2Handler.OnRead` | lib/asio_server_http2_handler.h:97-110 | Changes nothing but the nghttp2 session |
| `ServerConnection.Http2Handler.OnWrite` | lib/asio_server_http2_handler.h:112-151 | The in-place `on_write` refines the step system and stays inside the buffer |
| `ServerConnection.Http2Handler.Fill` | lib/asio_server_http2_handler.h:127-148 | The filling loop refines the recursive one |
| `ServerConnection.Connection.constructor` | lib/asio_server_connection.h:88-99 | `start` establishes the initial state: reading, or stopped if the handler did not start |
| `ServerConnection.Connection.DoWrite` | lib/asio_server_connection.h:167-214 | `do_write` refines the step system |
| `ServerConnection.Connection.HandleRead` | lib/asio_server_connection.h:136-164 | The read handler refines the step system and keeps the invariant |
| `ServerConnection.Connection.HandleWritten` | lib/asio_server_connection.h:199-208 | The write handler refines the step system and keeps the invariant |
| `ServerConnection.Connection.InitiateWrite` | lib/asio_server_http2_handler.cc:422-425 | The posted write refines the step system and keeps the invariant |
| `ServerConnection.Connection.Stop` | lib/asio_server_connection.h:216-225 | Stops once; when called because `should_stop` holds nothing is unsent |
| `PathClean.CleanIsRfcOnSqueezed` | lib/http2.cc:598-681 | For every path, `path_join` with empty base and queries is `remove_dot_segments` of section 5.2.4 of RFC 3986 applied to the path with its leading slash run, and every run after an ordinary segment, reduced to one slash |
| `PathClean.CleanIsRfc` | lib/http2.cc:598-681 | For every absolute path without `//` it is `remove_dot_segments` itself |
| `PathClean.WalkSimulatesRfc` | lib/http2.cc:641-674 | The code's single buffer with backtracking simulates the RFC's input and output buffers |
| `PathClean.EatDirIsRemoveLast` | lib/http2.cc:587-595 | Backtracking over a directory is the RFC's removal of the last segment |
| `PathClean.EatFileIsRemoveLast` | lib/http2.cc:562-583 | Dropping the file part is the same removal with the slash kept |
| `PathClean.SqueezeTailIdentity` | lib/http2.cc:665-673 | A path without slash runs is not squeezed |
| `PathClean.SkipsOnlySlashes` | lib/http2.cc:632-673 | What the skipping loops pass over is a run of slashes and nothing else |
| `PathShape.CleanDedups` | lib/http2.cc:598-681 | A path without dot segments, absolute or not, is cleaned to itself made absolute with every slash that follows a slash dropped, position by position |
| `PathResolve.JoinIsResolution` | lib/http2.cc:598-681 | For every base that is empty or absolute without dot segments, and every path and query: `path_join` is the resolution of the reference by sections 5.2.2, 5.2.3 and 5.3 of RFC 3986, slash runs dropped, if and only if the relative path is more than `.` segments or the base ends in a slash |
| `PathResolve.JoinRelative` | lib/http2.cc:641-674 | The same for the loop started on the base path; where it fails the base is returned as it is |
| `PathShape.CleanShape` | lib/http2.cc:598-681 | Every cleaned path is absolute and has no `.` or `..` segment |
| `PathShape.CleanFixpoint` | lib/http2.cc:598-681 | A path is unchanged exactly when it is absolute, dot-free and free of slash runs |
| `PathShape.CleanTwiceNormal` | lib/http2.cc:641-674 | Cleaning twice always yields such a path |
| `PathShape.CleanThriceIsTwice` | lib/http2.cc:641-674 | Cleaning three times equals cleaning twice |
| `PathShape.CleanIdempotentExactly` | lib/http2.cc:641-674 | For every path, cleaning twice equals cleaning once if and only if reading the path (`.` writes nothing, `..` takes the last segment back, runs after ordinary segments are skipped) leaves no empty segment |
| `PathShape.CleanLeavesRun` | lib/http2.cc:641-674 | Under exactly that test of the input the cleaned path has a slash run |
| `PathShape.CleanLeavesRunFirst` | lib/http2.cc:641-674 | The cleaned path starts with two slashes if and only if reading the path leaves an empty segment in the first place |
| `PathShape.CleanToDoubleSlash` | lib/http2.cc:646-649 | For every ordinary segment b, `/.//b` cleans to `//b` |
| `PathShape.WalkEnds` | lib/http2.cc:641-674 | From every buffer the loop ends with a directory, a slash and a file; which segments of the directory are empty is told by the marks of the buffer and the input |
| `PathShape.CleanIdempotent` | lib/http2.cc:646-658 | The test is passed if no slash run follows a dot segment of the path, so if there is no slash run at all |
| `PathShape.CleanNotIdempotent` | lib/http2.cc:646-658 | For all ordinary segments a and b, `/a/..//b` cleans to `//b` and that to `/b` |
| `PathShape.WalkNoSlashRun` | lib/http2.cc:665-673 | The loop writes a slash run only if it reads one after a dot segment |
| `PathShape.CheckPathMeaning` | lib/util.cc:217-224 | The substring tests of `check_path` accept exactly the absolute paths without backslash, `.` segment or `..` segment |
| `PathShape.CleanPassesCheckPath` | lib/util.cc:217-224 | Every cleaned path without backslash passes `check_path` |
| `PathBuffer.EatFileInPlace` | lib/http2.cc:562-583 | In place, within the buffer, `eat_file` leaves what the value function says |
| `PathBuffer.EatDirInPlace` | lib/http2.cc:587-595 | The same for `eat_dir`; its assertion holds |
| `PathBuffer.WalkInPlace` | lib/http2.cc:641-674 | The main loop ends, every read of the byte before the write position and every write is inside the buffer, and the bytes written are the cleaned path |
| `PathBuffer.CopySegment` | lib/http2.cc:662-673 | One ordinary segment is copied and the slashes after it skipped, never writing past what was read |
| `PathBuffer.PathJoin` | lib/http2.cc:598-681 | For all arguments, base paths without a leading slash included, the allocated size suffices and the NUL-terminated result is the join |
| `Percent.PercentEncodePath` | lib/util.cc:116-130 | The appending loop computes the encoding of the whole string |
| `Percent.PercentDecode` | lib/util.h:95-117 | The buffer loop computes the decoding, malformed escapes kept as they are |
| `Percent.DecodeEncode` | lib/util.cc:116-130 | Decoding undoes encoding for every byte string |
| `Percent.DecodeMeaning` | lib/util.h:95-117 | For every spelling by escapes, with hex digits of either case, and bytes that stand for themselves: each escape decodes to the byte of its two digits and every other byte stays, a `%` without two hex digits after it included |
| `Percent.Pieces` | lib/util.h:95-117 | Every string has such a spelling, so that says what every string decodes to |
| `Percent.EncodeMeaning` | lib/util.cc:102-130 | A byte is kept exactly if it is unreserved or a sub-delimiter by RFC 3986, or a slash; otherwise it becomes `%` and its two digits, in upper case |
| `Percent.EncodeConcat` | lib/util.cc:116-130 | Strings are encoded byte by byte |
| `Percent.EncodeAlphabet` | lib/util.cc:102-130 | Encoded paths hold only kept characters and escapes, so never `?` |
| `Percent.DecodePlain` | lib/util.h:95-117 | A string without `%` decodes to itself |
| `Percent.HexToUintExactly` | lib/util.cc:132-143 | For every char, signed or not, `hex_to_uint` returns 256 if and only if it lies past `z`, and what its header documents if and only if it is a hex digit or lies past `z` |
| `Percent.HexToUintAtG` | lib/util.h:88-90 | At `G` it returns 16, not 256 |
| `Percent.UpperHex` | lib/util.cc:99-143 | `hex_to_uint` undoes the upper-case digit table |
| `Percent.UriRef.SplitPath` | lib/asio_common.h:49-61 | Fills path, raw path and raw query and no other field |
| `Percent.SplitAtQuery` | lib/asio_common.h:49-61 | Splitting undoes joining with `?` when the path has none |
| `ServeMux.Server.Handle` | lib/asio_server_serve_mux.cc:38-75 | Returns true exactly for a nonempty pattern, a callback and no user-defined entry at the key; the new map is given in full |
| `ServeMux.Server.Match` | lib/asio_server_serve_mux.cc:115-132 | Whatever the iteration order, returns the callback of the longest key that is the path or ends in a slash and is a prefix of it, and none if no key is |
| `ServeMux.Server.Handler` | lib/asio_server_serve_mux.cc:77-104 | Redirects paths that are not clean, except for CONNECT, else routes by host and path, then path, then 404 |
| `ServeMux.LongestMeaning` | lib/asio_server_serve_mux.cc:107-132 | A key is found exactly when it is the longest of all matching keys |
| `ServeMux.LongestIsLongest` | lib/asio_server_serve_mux.cc:107-132 | Longest matching keys are unique, so the order of iteration cannot matter |
| `ServeMux.InstallsExactlyWhenFree` | lib/asio_server_serve_mux.cc:43-75 | An accepted callback is installed if and only if nothing sat at the key; otherwise the implicit redirect stays |
| `ServeMux.AcceptedButNotInstalled` | lib/asio_server_serve_mux.cc:61-74 | `/foo/` and then `/foo` are both accepted, yet `/foo` still redirects |
| `ServeMux.NotInstalledExactly` | lib/asio_server_serve_mux.cc:38-75 | Over any sequence of calls: an accepted pattern is not installed if and only if an earlier call for that pattern with a slash added was accepted |
| `ServeMux.UserEntriesStay` | lib/asio_server_serve_mux.cc:43-72 | No call displaces a user-defined entry or loses a key |
| `ServeMux.UserEntriesStayForever` | lib/asio_server_serve_mux.cc:38-75 | Over any sequence of calls a user-defined entry stays as it is |
| `ServeMux.BuildWellFormed` | lib/asio_server_serve_mux.cc:38-75 | Over any sequence of calls whose subtree patterns are free of `//`, `%` and `?` (other patterns may be anything), every implicit entry redirects to a user-defined subtree entry one slash longer, and every user-defined subtree key has an entry one slash shorter |
| `ServeMux.ImplicitLocation` | lib/asio_server_serve_mux.cc:48-70 | An implicit entry that is selected redirects to the request path with a slash added |
| `ServeMux.ImplicitRedirectOneHop` | lib/asio_server_serve_mux.cc:38-132 | For a map built by any sequence of plain patterns and a host without slash, following an implicit redirect selects, in one hop and with no further redirect, the user-defined entry it was made for |
| `ServeMux.LocationRoundTrip` | lib/asio_server_serve_mux.cc:77-92 | The Location of a redirect is split back into exactly the cleaned path and the same raw query |
| `ServeMux.HopMeaning` | lib/asio_server_serve_mux.cc:77-92 | Following a normalising redirect cleans the path and keeps the query |
| `ServeMux.RedirectsEnd` | lib/asio_server_serve_mux.cc:77-92 | From every target, two hops reach a path that needs no redirect |
| `ServeMux.RouteRedirects` | lib/asio_server_serve_mux.cc:77-92 | Every request other than CONNECT whose path is not normal gets exactly the 301 redirect whose target is the hop |
| `ServeMux.RouteServes` | lib/asio_server_serve_mux.cc:93-104 | For a map built by any sequence of calls, any other request gets the longest match of host and path, failing that of the path, failing that 404; a key matches that is the text itself or ends in a slash and is a prefix of it |
| `ServeMux.SubtreeServes` | lib/asio_server_serve_mux.cc:93-132 | For a map built by any calls, a key k that ends in a slash and any rest: the request for k followed by the rest is answered by a key that matches with the host, or by one at least as long as k, never with the 404 of an unknown path |
| `ServeMux.PathMatchMeaning` | lib/asio_server_serve_mux.cc:107-112 | A pattern matches the path it is and, if it ends in a slash, everything below it, and nothing else |
| `ServeMux.RedirectsReachDestination` | lib/asio_server_serve_mux.cc:38-132 | Redirects composed, for a map built from subtree patterns free of `//`, `%`, `?` and `#` and a host without slash: a client that follows Location from any target other than CONNECT's reaches, after at most three hops, the twice cleaned path with its query, or that path with a slash added and no query, if and only if the path does not leave an empty segment first (then the first Location names another host); at the destination a user-defined entry or 404 answers |
| `ServeMux.LocationLeavesHost` | lib/asio_server_serve_mux.cc:80-90 | The Location of a normalising redirect starts with two slashes if and only if the path leaves an empty segment first |
| `ServeMux.LedAway` | lib/asio_server_serve_mux.cc:80-90 | From such a path the client is sent to another host at once |
| `ServeMux.FollowNormalises` | lib/asio_server_serve_mux.cc:77-92 | Otherwise a normalising redirect leads to the cleaned path with the query, up to a fragment, which is not sent |
| `ServeMux.FollowImplicit` | lib/asio_server_serve_mux.cc:48-70 | An implicit redirect drops the query; its Location names a path served by a user-defined entry, and a client reaches it if and only if the path holds no `#` |
| `ServeMux.ServedRoute` | lib/asio_server_serve_mux.cc:93-104 | What is reached is answered by the selected entry's callback or with 404 |
| `ServeMux.CleanBytes` | lib/http2.cc:598-681 | Cleaning a byte string yields bytes |
| `UrlParser.RunHost` | third-party/url-parser/url_parser.c:445-506 | The host loop computes the host machine's state, or both died |
| `UrlParser.ParseHost` | third-party/url-parser/url_parser.c:445-524 | Accepts exactly in the three final states, with the slices recorded |
| `UrlParser.ScanUrl` | third-party/url-parser/url_parser.c:548-604 | The first loop computes the URL machine's state, or both died; "Unexpected state" is never reached |
| `UrlParser.ReadPort` | third-party/url-parser/url_parser.c:637-648 | The digit loop computes the port or fails at the first overflow |
| `UrlParser.FinishUrl` | third-party/url-parser/url_parser.c:619-652 | CONNECT needs host and port and nothing else; the port-overflow assertion is never reached |
| `UrlParser.ParseUrl` | third-party/url-parser/url_parser.c:532-652 | The whole parser computes the parse, for every input, 16-bit truncation included |
| `UrlParser.PortLoopIsDecimal` | third-party/url-parser/url_parser.c:637-648 | The digit loop yields the decimal value, and fails exactly when that exceeds 65535 |
| `UrlClasses.UrlCharIsTable` | third-party/url-parser/url_parser.c:40-73 | The class of URL characters is the bit of the 32-byte table, for every byte |
| `UrlClasses.ClassesByCode` | third-party/url-parser/url_parser.c:174-205 | The classes for URL, query, fragment, host, userinfo, address and zone, each by character codes and the sets of RFC 3986 |
| `UrlClasses.RfcAllowed` | third-party/url-parser/url_parser.c:174-205 | Whatever RFC 3986 allows in a path, query or userinfo, escapes included, belongs to the class the parser tests there |
| `UrlClasses.RfcUrlOk` | third-party/url-parser/url_parser.c:215-442 | A URL with an authority by the character sets of RFC 3986 is well formed for the parser if and only if its scheme is letters, its host name nonempty letters, digits, hyphens and dots, its port nonempty and at most 65535, and a fragment comes after a path or a query |
| `UrlClasses.RfcUrlParsed` | third-party/url-parser/url_parser.c:532-652 | Each of those is parsed to exactly its components, if and only if they fit 16 bits |
| `UrlWidth.ParseExact` | third-party/url-parser/url_parser.c:532-652 | For inputs of every length: a URL that is well formed is parsed to its true slices if and only if every true offset and length is below 65536, those of the authority before it is taken apart included |
| `UrlWidth.ParseIsTrue` | third-party/url-parser/url_parser.c:532-652 | If they all fit, the parser accepts and records exactly what it would without the casts to 16 bits, malformed inputs included |
| `UrlWidth.ScanAllWraps` | third-party/url-parser/url_parser.c:593-604 | For inputs of every length the first loop goes through the true states and sets the true fields, to the true slices modulo 65536 |
| `UrlWidth.HostAllWraps` | third-party/url-parser/url_parser.c:457-506 | So does the host loop, over the text it is given |
| `UrlWidth.FieldsWrap` | third-party/url-parser/url_parser.c:548-617 | So do both together, if the authority fits |
| `UrlWidth.ShortFits` | third-party/url-parser/url_parser.c:532-652 | Everything fits in inputs of up to 65535 bytes |
| `UrlWidth.ParseLayout` | third-party/url-parser/url_parser.c:532-652 | After any successful parse in which everything fits, set fields are nonempty, in bounds, ordered scheme < userinfo < host < port < path < query < fragment (so disjoint), and every other byte is one of `: / @ [ ] ? #` |
| `UrlWidth.ParsePort` | third-party/url-parser/url_parser.c:619-652 | Likewise the port field is a digit string and `port` its decimal value, at most 65535; without the field `port` is 0 |
| `UrlLayout.TrueLayout` | third-party/url-parser/url_parser.c:532-652 | Without the casts that layout holds after every successful parse, of any length |
| `UrlLayout.TruePort` | third-party/url-parser/url_parser.c:619-652 | So does the statement about the port |
| `UrlLayout.HostReachesEnd` | third-party/url-parser/url_parser.c:457-524 | The last field of an accepted authority ends where the authority ends, or one closing bracket before |
| `UrlLayout.ParseFields` | third-party/url-parser/url_parser.c:606-622 | With and without the casts: scheme, userinfo or port only come with a host; CONNECT yields exactly host and port |
| `UrlLayout.UrlCharForward` | third-party/url-parser/url_parser.c:215-360 | Every transition of the URL machine stays in its field, or moves forward to a later one, or over a delimiter |
| `UrlLayout.HostCharForward` | third-party/url-parser/url_parser.c:363-442 | The same for the host machine |
| `UrlLayout.ScanAllLaid` | third-party/url-parser/url_parser.c:548-604 | The first loop lays its fields out in order with only delimiters between |
| `UrlLayout.HostAllLaid` | third-party/url-parser/url_parser.c:445-506 | So does the host loop, inside the authority |
| `UrlLayout.PortTail` | third-party/url-parser/url_parser.c:484-491 | Once the port has begun, everything read is a digit of it |
| `UrlRoundTrip.ParsePrint` | third-party/url-parser/url_parser.c:532-652 | A URL printed from well-formed components, of any length, parses to exactly the slices where printing put them, with `port` the decimal value, if and only if each component and the authority as a whole start and are long below 65536; those slices hold exactly the components present |
| `UrlRoundTrip.TrueParsePrint` | third-party/url-parser/url_parser.c:532-652 | Without the casts parsing undoes printing for every length |
| `UrlRoundTrip.ParsePrintTarget` | third-party/url-parser/url_parser.c:548-617 | The same if-and-only-if for the origin form: a path or `*` with query and fragment |
| `UrlRoundTrip.TargetWraps` | third-party/url-parser/url_parser.c:593-604 | The origin form is accepted at any length and its parts recorded modulo 65536 |
| `UrlRoundTrip.ParsePrintTunnel` | third-party/url-parser/url_parser.c:606-648 | For CONNECT, a printed host and port, with an empty userinfo, query or fragment mark as the machines allow, are found again if and only if the authority is shorter than 65536 bytes |
| `UrlGrammar.AcceptsExactly` | third-party/url-parser/url_parser.c:532-652 | For every input of every length, without the casts: it is accepted if and only if it is printed from well-formed parts, as an absolute URL, an origin or asterisk target or, for CONNECT, a host and port; and then the result is those parts, so no text has two readings with different results |
| `UrlGrammar.AcceptedIsPrinted` | third-party/url-parser/url_parser.c:215-524 | Every accepted input is taken apart, along the states of both machines, into well-formed parts that print as the input |
| `UrlGrammar.CutRun` | third-party/url-parser/url_parser.c:215-360 | While the URL machine lives, what it has read is its parts in order, each of its own characters, and the fields set are those of the parts that are not empty |
| `UrlGrammar.HostCutRun` | third-party/url-parser/url_parser.c:363-442 | The same for the host machine, with the slices of userinfo and port |
| `UrlRoundTrip.ScanPrinted` | third-party/url-parser/url_parser.c:215-360 | The URL machine cuts a printed URL at its components, the authority as one field |
| `UrlRoundTrip.HostOfAuthority` | third-party/url-parser/url_parser.c:363-524 | The host machine cuts a printed authority into userinfo, host without brackets and port |
| `UrlRoundTrip.LongPathWraps` | third-party/url-parser/url_parser.c:593-604 | A path of n bytes is accepted with recorded length n modulo 65536 |
| `UrlRoundTrip.LongAuthorityCut` | third-party/url-parser/url_parser.c:445-457 | An authority made of a host name and any 65536 authority bytes is accepted as that name |
| `UrlRoundTrip.LongAuthorityMalformed` | third-party/url-parser/url_parser.c:363-442 | Without the casts it is refused, for one if a percent sign follows the name |
| `Allocator.BlockAllocator.constructor` | lib/allocator.h:58-64 | A new allocator is valid and empty |
| `Allocator.BlockAllocator.AllocMemBlock` | lib/allocator.h:99-108 | The new block joins the retain list, which keeps every block exactly once and ends; blocks stay apart in memory |
| `Allocator.BlockAllocator.Alloc` | lib/allocator.h:110-135 | The new header and payload lie inside one block and apart from all others, although the write position may be rounded past the block's end; the stored length is at least the size; earlier contents are kept |
| `Allocator.BlockAllocator.AllocIsolated` | lib/allocator.h:111-119 | A large request gets a block of its own |
| `Allocator.BlockAllocator.AllocFromHead` | lib/allocator.h:126-134 | A small one is cut from the current block |
| `Allocator.BlockAllocator.GetAllocLength` | lib/allocator.h:139-142 | The header in raw memory still holds the length, whatever was written to other allocations |
| `Allocator.BlockAllocator.Realloc` | lib/allocator.h:151-167 | Keeps the old bytes at the front of the result, grows in place or moves, and disturbs no allocation; a null pointer allocates |
| `Allocator.BlockAllocator.Reset` | lib/allocator.h:88-97 | Gives every block of the list back exactly once and no other array |
| `Allocator.BlockAllocator.Write` | lib/allocator.h:110-167 | A write within one allocation leaves every header and every other allocation as it was |
| `Allocator.OtherBlocksDisjoint` | lib/allocator.h:99-135 | Allocations of different blocks never meet |
| `Allocator.TagNew` | lib/allocator.h:115-129 | Storing the length of a new allocation extends the invariant to it |
| `Allocator.WriteOwn` | lib/allocator.h:110-167 | A write inside allocation k keeps all headers and the bytes of all others |
| `Allocator.DeleteOne` | lib/allocator.h:88-94 | When `reset` reaches a block its array is still live, so nothing is freed twice |
| `Heap.LoadSizeStored` | lib/allocator.h:113-142 | A length stored as eight bytes is read back |
| `ConcatString.Count` | lib/allocator.h:193-203 | The accumulated length is that of the concatenation |
| `ConcatString.CopyArgs` | lib/allocator.h:207-218 | Copies the arguments behind what is there, with a NUL, inside the allocation |
| `ConcatString.Concat` | lib/allocator.h:222-230 | A new allocation holds the NUL-terminated concatenation; all earlier ones are kept |
| `ConcatString.ReallocConcat` | lib/allocator.h:238-254 | The result holds value followed by the arguments, grown in place or moved; every other allocation keeps its bytes, and the old text can still be read where it was |
| `ConcatString.ConcatChain` | lib/allocator.h:238-254 | Any chain of such calls from the empty string yields the NUL-terminated concatenation of all arguments and leaves every earlier allocation as it was |
| `Response.EveryResponse` | lib/asio_server_response_impl.cc:48-105 | Over every interleaving of `write_head`, `end`, `resume`, promise-sent events and reads, in terms of the events alone: a response is handed to nghttp2 exactly once when its head is settled and any promise sent, and never otherwise; its status is that of the first `write_head`, or 200 if an `end` comes first; a body goes with it exactly if nghttp2 answers that event with success, the method is not HEAD and the status is not 204, 304 or 1xx other than 101; the body is that of the first `end`, unless the response had gone out without one; what reads produced is a prefix of its string; after `end` no body is left to the initial generator or deferred by it; a body is deferred exactly if a read found none given yet, or the user's generator deferred, and neither `resume` nor the `end` that gives the body has come since |
| `Response.RunWaits` | lib/asio_server_response_impl.cc:69-130 | The last of these: when a body is deferred, told by the events |
| `Response.RunTells` | lib/asio_server_response_impl.cc:48-162 | In every reachable state the fields are what the events tell: head, status, promise, phase, what was handed over, the body given |
| `Response.StepTells` | lib/asio_server_response_impl.cc:48-162 | Every event keeps that |
| `Response.BodyExpected` | lib/http2.cc:552-559 | `expect_response_body` says no exactly for HEAD, 204, 304 and 1xx other than 101 |
| `Response.ReadOther` | lib/asio_server_response_impl.cc:153-162 | A generator of the user's is passed on as it answers; an empty one ends the body at once |
| `Response.RunKeeps` | lib/asio_server_response_impl.cc:48-162 | The invariant behind it, with produced ++ remaining equal to the string, holds in every reachable state |
| `Response.StepKeeps` | lib/asio_server_response_impl.cc:48-162 | Every event keeps it; the first `end` that took effect stays; nothing is handed over twice |
| `Response.ReadKeeps` | lib/asio_server_http2_handler.cc:353-367 | A read of any size keeps it |
| `Response.ReadEof` | lib/asio_common.cc:77-91 | A read flags EOF exactly when it leaves nothing, and produces as much as fits |
| `Response.NewKeeps` | lib/asio_server_response_impl.cc:38-44 | A new response satisfies it |
| `ResponseImpl.Impl.StartResponse` | lib/asio_server_response_impl.cc:92-105 | Called only when nothing was handed over yet; hands the response over with its status, and with a body exactly if method and status allow one and nghttp2 takes it |
| `ResponseImpl.Impl.WriteHead` | lib/asio_server_response_impl.cc:48-63 | Refines the step system and keeps the invariant; a second head is ignored, a pushed one waits for its promise |
| `ResponseImpl.Impl.End` | lib/asio_server_response_impl.cc:69-85 | Likewise, for a generator of the user's; only the first `end` takes effect and wakes a deferred body |
| `ResponseImpl.Impl.EndString` | lib/asio_server_response_impl.cc:65-67 | Likewise, with a string, which becomes the body exactly if no `end` took effect before |
| `ResponseImpl.Impl.PushPromiseSent` | lib/asio_server_response_impl.cc:138-147 | Likewise; starts a response that waited, once |
| `Basics.CopyInto` | lib/asio_server_http2_handler.h:145-147 | The copy loop behind every buffer: puts the bytes at the position, keeps what lies before, stays inside |
| `ResponseImpl.Impl.CallRead` | lib/asio_server_response_impl.cc:153-162 | Fills the caller's buffer with what the generator produces and no more than fits |
| `ResponseImpl.Impl.ReadBody` | lib/asio_server_http2_handler.cc:353-367 | The bytes put in the buffer are the ones counted as delivered; the invariant is kept |
| `StreamMap.EachNotifiedOnce` | lib/asio_client_session_impl.cc:58-67 | Over every run that ends in destruction, each stream that an insertion or creation event put in the map is notified exactly once, and no other stream at all |
| `StreamMap.NotifiedWhenClosed` | lib/asio_server_http2_handler.cc:182-196 | At any time of every run a stream has been notified exactly if it was put in the map and has been closed since, and then once |
| `StreamMap.RunTells` | lib/asio_client_session_impl.cc:355-366 | The streams that entered are those of the insertions and creations, and the map holds those not closed since |
| `StreamMap.EarlyClose` | lib/asio_client_session_impl.cc:562-577 | A close that comes before `submit` inserts the stream is made up for by the destructor |
| `StreamMap.StepKeeps` | lib/asio_client_session_impl.cc:355-366 | Every event keeps: entered streams not in the map were notified once, those in it not yet, and `assert(p.second)` holds |
| `StreamMap.RunKeeps` | lib/asio_client_session_impl.cc:453-473 | So in every reachable state |
| `StreamMap.DestroyedKeeps` | lib/asio_server_http2_handler.cc:252-256 | The destructor notifies exactly the streams that are left |
| `StreamMap.Session.FinishSubmit` | lib/asio_client_session_impl.cc:569-576 | Inserting after the write was signalled finds no stream at the id |
| `StreamMap.Session.CreateStream` | lib/asio_server_http2_handler.cc:307-316 | The new stream's id is free |
| `StreamMap.Session.OnStreamClose` | lib/asio_server_http2_handler.cc:182-196 | Removes and notifies a stream that is there, ignores any other |
| `StreamMap.Session.Destruct` | lib/asio_client_session_impl.cc:58-64 | Whatever the order of iteration, afterwards every entered stream has one notification |
| `Timegm.NextDayCounts` | lib/timegm.c:66-88 | From year 1 on each next civil day counts one more, through month ends, leap days and year ends |
| `Timegm.NextDayExactly` | lib/timegm.c:31-34 | Over all years, the next day counts one more except after 31 December of a year up to 0 that is a leap year (one too few) or follows one (one too many) |
| `Timegm.NumberedRight` | lib/timegm.c:66-88 | Over all years, a valid date gets its true number if and only if its year is past 0 or follows a leap year; otherwise the number is one too large |
| `Timegm.TrueNumberCounts` | lib/timegm.c:66-88 | What the true number is: 0 for 1970-01-01 and one more for every next civil day, of any year |
| `Timegm.CountAgainstTrue` | lib/timegm.c:31-34 | `count_leap_year` against the true count of leap years, over all years |
| `Timegm.YearZeroMiscounts` | lib/timegm.c:31-34 | 31 December of year 0 and 1 January of year 1 get the same number |
| `Timegm.NextDayAdds` | lib/timegm.c:66-88 | One day later is 86400 seconds later |
| `Timegm.SecondsIs` | lib/timegm.c:66-88 | The result is the day number in seconds plus the time of day |
| `Timegm.MonthPastDecember` | lib/timegm.c:37-88 | Both functions answer -1 for a month past December |
| `Timegm.Epoch` | lib/timegm.c:66-88 | 1970-01-01 is 0 |
| `Timegm.DayNumberMonotone` | lib/timegm.c:66-88 | Later dates have larger day numbers |
| `Timegm.Injective` | lib/timegm.c:66-88 | Two moments have the same result only if they are the same moment; later dates have larger results |
| `Timegm.Agree` | lib/timegm.c:37-88 | With a consistent day of the year both functions agree |
| `Timegm.MonthTable` | lib/timegm.c:63-78 | The table and the leap day agree with counting month by month |
| `Timegm.LeapStep` | lib/timegm.c:31-34 | From year 1 on, `count_leap_year` grows by one exactly after a leap year |
| `Timegm.LeapStepBefore` | lib/timegm.c:31-34 | Up to year 0 it grows one year late |
| `Timegm.DaysFitInt` | lib/timegm.c:66-78 | For years 1 to 5881579 the day count fits a 32-bit `int` |

## Left out

- Boost.Asio sockets, resolver, acceptors, TLS contexts and handshakes: only "completes with success or failure" events
  are modelled.
- The inside of nghttp2 (HPACK, flow control, frame parsing): an oracle, as described above.
- Object life times (`shared_ptr`, the raw `this` captured by the connection's write function).
- A server wakeup before the first read: SETTINGS are queued at start, but the first `do_write` follows a read.
- Client states before `connected`, including a failed `setup_session`, which reports an error without stopping.
- The re-arming of timers: any timer event may happen at any time in the model.
- User callbacks that call back into the session from its destructor.
- Delivery of a final response after a 1xx response, request and response headers, `lookup_token`, reason phrases.
- The socket and TLS parts of `stop`, and deadlines reset by reads and writes.
- File generators, `http_date`, `inet_pton` host classification, the io_service pool, the pimpl wrappers.
- ClientPump.ConnectedIsQuiet: a failed `setup_session`, after which nothing is pumped, is not part of it.
- ClientSession.Session.ApiCall: building the request and inserting the stream in `submit` are not part of it; the
  insertion is in `StreamMap.Session.FinishSubmit`.
- ClientSession.Session.OnPing: does not re-arm the timer; ping events may happen at any time instead.
- ClientSession.Session.OnDeadline: does not re-arm the timer; deadline events may happen at any time instead.
- Allocator.BlockAllocator.Alloc: `bad_alloc` does not happen, and sizes whose sums with the header and the bookkeeping
  wrap at 64 bits, which the code does not check for, are excluded.
- ConcatString.ReallocConcat: arguments are byte strings, so an argument that overlaps the value being grown is not
  modelled; nor is the move construction of allocators.
- PathBuffer.PathJoin: takes a new array instead of a `ByteRef` from the block allocator.
- Timegm.TimegmWithoutYday: the 32-bit `time_t` variant is not modelled, and a negative month, which would index before
  the table, is excluded.
- UrlParser.ParseUrl: only the strict mode of the parser is modelled.
- Percent.PercentEncodePath: bytes are unsigned; the masks in the source make the sign of `char` irrelevant.

/**
  The nghttp2 library as the pumps see it. It is an oracle: every value of these types is a behaviour the library and
  the user's callbacks may show, and the pumps are proved for all of them.
*/
module Nghttp2 {
  import opened Basics

  /** 64_k, the size of both write buffers */
  const BUFFER_SIZE: nat := 65536

  /**
    What a session answers: whether mem_send has something to return, and the two want_* functions. Any combination may
    occur; after a terminating GOAWAY a session need not want to write although frames are still queued.
  */
  datatype Lib = Lib(sendable: bool, wantRead: bool, wantWrite: bool)

  /** mem_send hands out chunks that fit an empty buffer. */
  type Chunk = d: Bytes | 1 <= |d| <= BUFFER_SIZE witness [0]

  /** The public functions a user may call, in callbacks or outside. */
  datatype Api = Submit | WriteTrailer | Cancel | Resume | Shutdown

  /**
    One API call by the user: whether nghttp2 took the request, the session afterwards, and the answers mem_send has
    ready should this call run the pump.
  */
  datatype Call = Call(api: Api, accepted: bool, lib: Lib, script: seq<Answer>)

  /**
    One return of mem_send: first callbacks run and the user makes calls from them, then the result. It returns 0
    (Nothing) only when nothing is sendable; an error is reported to the user, whose error callback may make calls too.
  */
  datatype Answer =
    | Failure(calls: seq<Call>, lib: Lib, onError: seq<Call>)
    | Nothing(calls: seq<Call>, lib: Lib)
    | Data(calls: seq<Call>, lib: Lib, data: Chunk)

  /** The session after the answer; after Nothing, nothing is sendable. */
  function LibAfter(a: Answer): Lib {
    if a.Nothing? then Asleep(a.lib) else a.lib
  }

  function Asleep(lib: Lib): Lib {
    lib.(sendable := false)
  }
}

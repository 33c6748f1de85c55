/**
  The server's write pump (lib/asio_server_http2_handler.h and .cc, lib/asio_server_connection.h) as a step system over
  values. API calls outside callbacks do not write: they post one initiate_write, which runs later.
*/
module ServerPump {
  import opened Basics
  import opened Nghttp2

  /** The functions of http2_handler that user code reaches through a response. */
  datatype ServerApi = StartResponse | SubmitTrailer | PushPromise | StreamError | ResumeData

  datatype ServerCall = ServerCall(api: ServerApi, accepted: bool, lib: Lib)

  /** One return of mem_send on the server: callbacks run first. */
  datatype Reply =
    | Failure(calls: seq<ServerCall>, lib: Lib)
    | Nothing(calls: seq<ServerCall>, lib: Lib)
    | Data(calls: seq<ServerCall>, lib: Lib, data: Chunk)

  function LibAfterReply(r: Reply): Lib {
    if r.Nothing? then Asleep(r.lib) else r.lib
  }

  /** The fields of http2_handler, and all that mem_send has returned. */
  datatype Handler = Handler(
    parked: Option<Bytes>, insideCallback: bool, signaled: bool, lib: Lib, produced: Bytes, fault: bool)

  /**
    The connection: out holds the bytes of outbuf_ that the write under way carries; started says that a first read has
    been handled.
  */
  datatype State = State(
    h: Handler, out: Bytes, writing: bool, stopped: bool, reading: bool, started: bool,
    completed: Bytes, outstanding: nat, fault: bool)

  // ---------------------------------------------------------------- http2_handler

  function Enter(h: Handler): Handler {
    h.(insideCallback := true, fault := h.fault || h.insideCallback)
  }

  function Leave(h: Handler): Handler {
    h.(insideCallback := false, fault := h.fault || !h.insideCallback)
  }

  /** signal_write: at most one initiate_write is posted. */
  function SignalWrite(h: Handler): Handler {
    if h.insideCallback then h else h.(signaled := true)
  }

  function ApiCall(h: Handler, c: ServerCall): Handler {
    if !c.accepted && (c.api == StartResponse || c.api == SubmitTrailer || c.api == PushPromise) then h
    else SignalWrite(h.(lib := c.lib))
  }

  function RunCalls(h: Handler, calls: seq<ServerCall>): Handler
    decreases |calls|
  {
    if calls == [] then h else RunCalls(ApiCall(h, calls[0]), calls[1..])
  }

  function MemSend(h: Handler, r: Reply): Handler {
    var h1 := RunCalls(h.(fault := h.fault || h.parked.Some?), r.calls);
    h1.(lib := LibAfterReply(r), produced := h1.produced + if r.Data? then r.data else [])
  }

  /** on_write's result: the handler, the bytes put in the buffer, and whether mem_send failed. */
  datatype Filled = Filled(h: Handler, buf: Bytes, failed: bool)

  /** The for loop of on_write. */
  function Fill(h: Handler, buf: Bytes, script: seq<Reply>): Filled
    decreases |script|
  {
    if script == [] then Filled(h.(fault := h.fault || h.parked.Some?, lib := Asleep(h.lib)), buf, false)
    else
      var h1 := MemSend(h, script[0]);
      match script[0]
      case Failure(_, _) => Filled(h1, buf, true)
      case Nothing(_, _) => Filled(h1, buf, false)
      case Data(_, _, data) =>
        if |buf| + |data| > BUFFER_SIZE then Filled(h1.(parked := Some(data)), buf, false)
        else Fill(h1, buf + data, script[1..])
  }

  function OnWrite(h: Handler, script: seq<Reply>): Filled {
    var first := if h.parked.Some? then h.parked.value else [];
    var f := Fill(Enter(h).(parked := None), first, script);
    f.(h := Leave(f.h))
  }

  predicate ShouldStop(h: Handler) {
    !h.lib.wantRead && !h.lib.wantWrite
  }

  // ---------------------------------------------------------------- connection

  /** stop(); drained says that it is because should_stop holds. */
  function Stop(s: State, drained: bool): State {
    if s.stopped then s
    else s.(stopped := true, fault := s.fault || (drained && (s.h.lib.sendable || s.h.parked.Some? || s.out != [])))
  }

  function DoWrite(s: State, script: seq<Reply>): State {
    if s.writing then s else Written(s, OnWrite(s.h, script))
  }

  /** do_write once on_write has returned. */
  function Written(s: State, f: Filled): State {
    if f.failed then Stop(s.(h := f.h, out := []), false)
    else if f.buf == [] then
      var s1 := s.(h := f.h, out := []);
      if ShouldStop(f.h) then Stop(s1, true) else s1
    else s.(h := f.h, out := f.buf, writing := true, outstanding := s.outstanding + 1)
  }

  datatype Event =
    | ReadDone(ok: bool, calls: seq<ServerCall>, lib: Lib, accepted: bool, script: seq<Reply>)
    | WriteDone(ok: bool, script: seq<Reply>)
    | Posted(script: seq<Reply>)
    | UserCall(call: ServerCall)
    | Deadline(expired: bool)

  predicate Enabled(s: State, e: Event) {
    match e
    case ReadDone(_, _, _, _, _) => s.reading
    case WriteDone(_, _) => s.outstanding > 0
    case Posted(_) => s.h.signaled
    case _ => true
  }

  function Step(s: State, e: Event): State {
    match e
    case ReadDone(ok, calls, lib, accepted, script) => HandleRead(s.(reading := false), ok, calls, lib, accepted, script)
    case WriteDone(ok, script) =>
      HandleWritten(s.(outstanding := if s.outstanding > 0 then s.outstanding - 1 else 0), ok, script)
    case Posted(script) => DoWrite(s.(h := s.h.(signaled := false)), script)
    case UserCall(call) => s.(h := ApiCall(s.h, call))
    case Deadline(expired) => if expired then Stop(s, false) else s
  }

  function HandleRead(s: State, ok: bool, calls: seq<ServerCall>, lib: Lib, accepted: bool, script: seq<Reply>): State {
    if !ok then Stop(s, false)
    else
      var s1 := s.(h := Leave(RunCalls(Enter(s.h), calls).(lib := lib)));
      if !accepted then Stop(s1, false)
      else
        var s2 := DoWrite(s1.(started := true), script);
        if !s2.writing && ShouldStop(s2.h) then Stop(s2, true) else s2.(reading := true)
  }

  function HandleWritten(s: State, ok: bool, script: seq<Reply>): State {
    if !ok then Stop(s, false)
    else DoWrite(s.(completed := s.completed + s.out, out := [], writing := false), script)
  }

  /** start(): SETTINGS are queued and the first read is begun; if the handler does not start, the connection stops. */
  function Started(lib: Lib, ok: bool): State {
    State(Handler(None, false, false, lib, [], false), [], false, !ok, ok, false, [], 0, false)
  }

  function Run(s: State, events: seq<Event>): State {
    if events == [] then s else Step(Run(s, events[..|events| - 1]), events[|events| - 1])
  }

  ghost predicate IsRun(s: State, events: seq<Event>) {
    forall i | 0 <= i < |events| :: Enabled(Run(s, events[..i]), events[i])
  }

  // ---------------------------------------------------------------- invariants

  function Parked(h: Handler): Bytes {
    if h.parked.Some? then h.parked.value else []
  }

  /** Holds in every state, also after the connection has stopped. */
  predicate Safe(s: State) {
    && !s.fault && !s.h.fault && !s.h.insideCallback
    && s.outstanding <= 1 && (s.outstanding == 1 ==> s.writing)
    && |Parked(s.h)| <= BUFFER_SIZE && |s.out| <= BUFFER_SIZE
  }

  /** Holds while the connection runs, also when do_write is entered. */
  predicate Settled(s: State) {
    && s.completed + s.out + Parked(s.h) == s.h.produced
    && (s.writing <==> s.out != []) && (s.writing <==> s.outstanding == 1)
  }

  /** From the first read on, whatever is sendable is being written or an initiate_write is posted. */
  predicate Awake(s: State) {
    !s.writing ==> s.h.parked.None? && (s.started && s.h.lib.sendable ==> s.h.signaled)
  }

  predicate Quiet(s: State) {
    Safe(s) && (!s.stopped ==> Settled(s) && Awake(s))
  }

  // ---------------------------------------------------------------- proofs

  lemma {:induction false} InsideCalls(h: Handler, calls: seq<ServerCall>)
    requires h.insideCallback
    ensures RunCalls(h, calls) == h.(lib := RunCalls(h, calls).lib)
    decreases |calls|
  {
    if calls != [] { InsideCalls(ApiCall(h, calls[0]), calls[1..]); }
  }

  lemma MemSendKeeps(h: Handler, r: Reply)
    requires h.insideCallback
    ensures MemSend(h, r)
         == h.(fault := h.fault || h.parked.Some?, lib := LibAfterReply(r),
               produced := h.produced + if r.Data? then r.data else [])
  {
    InsideCalls(h.(fault := h.fault || h.parked.Some?), r.calls);
  }

  /** The loop puts all that mem_send returns, in order, in the buffer or in the parked chunk. */
  lemma {:induction false} FillKeeps(h: Handler, buf: Bytes, script: seq<Reply>)
    requires h.insideCallback && !h.fault && h.parked.None? && |buf| <= BUFFER_SIZE
    ensures var f := Fill(h, buf, script);
            && f.h.insideCallback && !f.h.fault && f.h.signaled == h.signaled
            && |f.buf| <= BUFFER_SIZE && |Parked(f.h)| <= BUFFER_SIZE
            && exists sent: Bytes :: f.h.produced == h.produced + sent && f.buf + Parked(f.h) == buf + sent
    ensures var f := Fill(h, buf, script);
            !f.failed ==> (f.buf == [] ==> f.h.parked.None? && !f.h.lib.sendable)
    decreases |script|
  {
    var f := Fill(h, buf, script);
    if script == [] {
      assert f.h.produced == h.produced + [] && f.buf + Parked(f.h) == buf + [];
    } else {
      MemSendKeeps(h, script[0]);
      var h1 := MemSend(h, script[0]);
      match script[0]
      case Failure(_, _) => assert f.h.produced == h.produced + [] && f.buf + Parked(f.h) == buf + [];
      case Nothing(_, _) => assert f.h.produced == h.produced + [] && f.buf + Parked(f.h) == buf + [];
      case Data(_, _, data) =>
        if |buf| + |data| <= BUFFER_SIZE {
          FillKeeps(h1, buf + data, script[1..]);
          var sent: Bytes :| f.h.produced == h1.produced + sent && f.buf + Parked(f.h) == buf + data + sent;
          assert f.h.produced == h.produced + (data + sent) && f.buf + Parked(f.h) == buf + (data + sent);
        } else {
          assert f.h.produced == h.produced + data && f.buf + Parked(f.h) == buf + data;
        }
    }
  }

  /** on_write has put all that mem_send returned behind the chunk parked earlier, in the buffer or parked again. */
  ghost predicate Accounted(h: Handler, f: Filled) {
    && !f.h.insideCallback && !f.h.fault && f.h.signaled == h.signaled
    && |f.buf| <= BUFFER_SIZE && |Parked(f.h)| <= BUFFER_SIZE
    && (exists sent: Bytes :: f.h.produced == h.produced + sent && f.buf + Parked(f.h) == Parked(h) + sent)
    && (!f.failed && f.buf == [] ==> f.h.parked.None? && !f.h.lib.sendable)
  }

  /** The bytes of the chunks in a script */
  function DataOf(script: seq<Reply>): Bytes {
    if script == [] then [] else DataIn(script[0]) + DataOf(script[1..])
  }

  function DataIn(r: Reply): Bytes {
    if r.Data? then r.data else []
  }

  /** With used bytes in the buffer, the loop ends after n answers: the script is used up, or mem_send or the buffer is. */
  predicate EndsAt(used: nat, script: seq<Reply>, n: nat)
    requires n <= |script|
  {
    n == |script| || (n > 0 && (!script[n - 1].Data? || used + |DataOf(script[..n])| > BUFFER_SIZE))
  }

  /** The session is as the last answer left it, and asleep where mem_send had no more. */
  predicate LibEnds(after: Lib, before: Lib, script: seq<Reply>, n: nat)
    requires n <= |script|
  {
    var last := if n == 0 then before else LibAfterReply(script[n - 1]);
    after == last || (n == |script| && after == Asleep(last))
  }

  /** The handler h has become h' by taking n answers, with used bytes in the buffer before them. */
  predicate Consumed(h: Handler, h': Handler, used: nat, script: seq<Reply>, n: nat) {
    && n <= |script| && EndsAt(used, script, n)
    && h'.produced == h.produced + DataOf(script[..n]) && LibEnds(h'.lib, h.lib, script, n)
  }

  predicate FailsAt(script: seq<Reply>, n: nat) {
    0 < n <= |script| && script[n - 1].Failure?
  }

  /** The loop takes every answer until mem_send has nothing, fails or returns a chunk that does not fit. */
  lemma {:induction false} FillConsumes(h: Handler, buf: Bytes, script: seq<Reply>) returns (n: nat)
    requires h.insideCallback
    ensures var f := Fill(h, buf, script); Consumed(h, f.h, |buf|, script, n) && (f.failed <==> FailsAt(script, n))
    decreases |script|
  {
    n := 0;
    if script != [] {
      var first := script[0];
      var h1 := MemSend(h, first);
      assert h1.insideCallback && h1.produced == h.produced + DataIn(first) && h1.lib == LibAfterReply(first) by {
        MemSendKeeps(h, first);
      }
      if first.Data? && |buf| + |first.data| <= BUFFER_SIZE {
        var m := FillConsumes(h1, buf + first.data, script[1..]);
        n := m + 1;
        DataOfFirst(script, n);
        assert h.produced + DataIn(first) + DataOf(script[1..n]) == h.produced + DataOf(script[..n]);
        assert script[1..][..m] == script[1..n];
      } else {
        n := 1;
        DataOfFirst(script, 1);
      }
    }
  }

  lemma DataOfFirst(script: seq<Reply>, n: nat)
    requires 0 < n <= |script|
    ensures DataOf(script[..n]) == DataIn(script[0]) + DataOf(script[1..n])
  {
    assert script[..n][1..] == script[1..n];
  }

  lemma OnWriteKeeps(h: Handler, script: seq<Reply>)
    requires !h.insideCallback && !h.fault && |Parked(h)| <= BUFFER_SIZE
    ensures Accounted(h, OnWrite(h, script))
  {
    FillKeeps(Enter(h).(parked := None), Parked(h), script);
    var f := OnWrite(h, script);
    var sent: Bytes :| f.h.produced == h.produced + sent && f.buf + Parked(f.h) == Parked(h) + sent;
  }

  /** A running connection whose mem_send did not fail has every byte accounted for. */
  lemma WrittenSettled(s: State, f: Filled)
    requires Safe(s) && Settled(s) && !s.writing && Accounted(s.h, f) && !f.failed
    ensures s.completed + f.buf + Parked(f.h) == f.h.produced
  {
    var sent: Bytes :| f.h.produced == s.h.produced + sent && f.buf + Parked(f.h) == Parked(s.h) + sent;
    assert s.completed + f.buf + Parked(f.h) == s.completed + (Parked(s.h) + sent);
    assert s.completed + [] + Parked(s.h) + sent == s.completed + (Parked(s.h) + sent);
  }

  lemma WrittenKeeps(s: State, f: Filled)
    requires Safe(s) && (!s.stopped ==> Settled(s)) && !s.writing && Accounted(s.h, f)
    ensures Quiet(Written(s, f)) && Written(s, f).started == s.started
  {
    if !s.stopped && !f.failed { WrittenSettled(s, f); }
  }

  /** do_write from any settled state; the connection may be stopped, since do_write does not look. */
  lemma DoWriteKeeps(s: State, script: seq<Reply>)
    requires Safe(s) && (!s.stopped ==> Settled(s))
    ensures Quiet(DoWrite(s, script))
    ensures var s' := DoWrite(s, script); s'.started == s.started && (s.writing ==> s' == s)
  {
    if !s.writing {
      OnWriteKeeps(s.h, script);
      WrittenKeeps(s, OnWrite(s.h, script));
    }
  }

  lemma HandleReadKeeps(s: State, ok: bool, calls: seq<ServerCall>, lib: Lib, accepted: bool, script: seq<Reply>)
    requires Quiet(s)
    ensures Quiet(HandleRead(s, ok, calls, lib, accepted, script))
    ensures s.writing ==> Untouched(s, HandleRead(s, ok, calls, lib, accepted, script))
  {
    if ok {
      InsideCalls(Enter(s.h), calls);
      var s1 := s.(h := Leave(RunCalls(Enter(s.h), calls).(lib := lib)));
      assert s1.h == s.h.(lib := lib);
      if accepted { DoWriteKeeps(s1.(started := true), script); }
    }
  }

  lemma HandleWrittenKeeps(s: State, ok: bool, script: seq<Reply>)
    requires Quiet(s) && s.outstanding == 1
    ensures Quiet(HandleWritten(s.(outstanding := 0), ok, script))
  {
    var s0 := s.(outstanding := 0);
    if ok {
      assert s.completed + s.out + [] + Parked(s.h) == s.completed + s.out + Parked(s.h);
      DoWriteKeeps(s0.(completed := s.completed + s.out, out := [], writing := false), script);
    }
  }

  lemma PostedKeeps(s: State, script: seq<Reply>)
    requires Quiet(s)
    ensures Quiet(DoWrite(s.(h := s.h.(signaled := false)), script))
  {
    DoWriteKeeps(s.(h := s.h.(signaled := false)), script);
  }

  lemma WriteDoneKeeps(s: State, ok: bool, script: seq<Reply>)
    requires Quiet(s) && s.outstanding > 0
    ensures Quiet(Step(s, WriteDone(ok, script)))
  {
    HandleWrittenKeeps(s, ok, script);
  }

  lemma ReadDoneKeeps(s: State, ok: bool, calls: seq<ServerCall>, lib: Lib, accepted: bool, script: seq<Reply>)
    requires Quiet(s)
    ensures Quiet(Step(s, ReadDone(ok, calls, lib, accepted, script)))
  {
    HandleReadKeeps(s.(reading := false), ok, calls, lib, accepted, script);
  }

  /** Every event keeps the server quiet. */
  lemma StepKeeps(s: State, e: Event)
    requires Quiet(s) && Enabled(s, e)
    ensures Quiet(Step(s, e))
  {
    match e
    case ReadDone(ok, calls, lib, accepted, script) => ReadDoneKeeps(s, ok, calls, lib, accepted, script);
    case WriteDone(ok, script) => WriteDoneKeeps(s, ok, script);
    case Posted(script) => PostedKeeps(s, script);
    case UserCall(call) => UserCallKeeps(s, call);
    case Deadline(_) => StopKeeps(s);
  }

  /** No event but its own completion touches the bytes of a write under way. */
  lemma WriteUntouched(s: State, e: Event)
    requires Quiet(s) && Enabled(s, e) && s.writing && !e.WriteDone?
    ensures Untouched(s, Step(s, e))
  {
    match e
    case ReadDone(ok, calls, lib, accepted, script) =>
      HandleReadKeeps(s.(reading := false), ok, calls, lib, accepted, script);
    case UserCall(call) => UserCallKeeps(s, call);
    case _ =>
  }

  predicate Untouched(s: State, s': State) {
    s'.writing && s'.out == s.out && s'.outstanding == s.outstanding && s'.h.parked == s.h.parked
  }

  lemma UserCallKeeps(s: State, c: ServerCall)
    requires Quiet(s)
    ensures Quiet(s.(h := ApiCall(s.h, c))) && ApiCall(s.h, c).parked == s.h.parked
    ensures c.accepted || c.api == StreamError || c.api == ResumeData ==>
              ApiCall(s.h, c).lib == c.lib && ApiCall(s.h, c).signaled
    ensures !c.accepted && c.api != StreamError && c.api != ResumeData ==> ApiCall(s.h, c) == s.h
  {
  }

  lemma StopKeeps(s: State)
    requires Quiet(s)
    ensures Quiet(Stop(s, false))
  {
  }

  /**
    A running connection that reads or writes successfully, and whose mem_send does not fail, stops exactly when no
    write is under way and nghttp2 wants neither to read nor to write. Otherwise reading goes on: a handled read begins
    the next one, and a handled write leaves the read under way alone.
  */
  lemma StopsWhenDone(s: State, e: Event)
    requires Quiet(s) && Enabled(s, e) && !s.stopped
    requires (e.ReadDone? && e.ok && e.accepted) || (e.WriteDone? && e.ok)
    requires forall r | r in e.script :: !r.Failure?
    ensures var s' := Step(s, e);
            && (s'.stopped <==> !s'.writing && !s'.h.lib.wantRead && !s'.h.lib.wantWrite)
            && (e.ReadDone? && !s'.stopped ==> s'.reading)
            && (e.WriteDone? ==> s'.reading == s.reading)
  {
    var s1 := if e.ReadDone? then s.(h := s.h.(lib := e.lib), started := true, reading := false)
              else s.(outstanding := 0, completed := s.completed + s.out, out := [], writing := false);
    if e.ReadDone? { InsideCalls(Enter(s.h), e.calls); }
    NoFailure(Enter(s1.h).(parked := None), Parked(s1.h), e.script);
  }

  lemma {:induction false} NoFailure(h: Handler, buf: Bytes, script: seq<Reply>)
    requires forall r | r in script :: !r.Failure?
    ensures !Fill(h, buf, script).failed
    decreases |script|
  {
    if script != [] && script[0].Data? && |buf| + |script[0].data| <= BUFFER_SIZE {
      NoFailure(MemSend(h, script[0]), buf + script[0].data, script[1..]);
    }
  }

  // ---------------------------------------------------------------- progress

  /** A connection with handler h has become s' by a pump that took n answers. */
  predicate PumpedTo(h: Handler, s': State, script: seq<Reply>, n: nat) {
    Consumed(h, s'.h, |Parked(h)|, script, n) && (FailsAt(script, n) ==> s'.stopped)
  }

  lemma DoWriteConsumes(s: State, script: seq<Reply>) returns (n: nat)
    requires !s.writing && !s.h.insideCallback
    ensures PumpedTo(s.h, DoWrite(s, script), script, n)
  {
    n := FillConsumes(Enter(s.h).(parked := None), Parked(s.h), script);
  }

  lemma ReadPumps(s: State, calls: seq<ServerCall>, lib: Lib, script: seq<Reply>) returns (n: nat)
    requires Quiet(s)
    ensures var s' := HandleRead(s, true, calls, lib, true, script);
            if s.writing then s'.h == s.h.(lib := lib) else PumpedTo(s.h.(lib := lib), s', script, n)
  {
    n := 0;
    InsideCalls(Enter(s.h), calls);
    var s1 := s.(h := s.h.(lib := lib), started := true);
    assert Leave(RunCalls(Enter(s.h), calls).(lib := lib)) == s1.h;
    if !s.writing { n := DoWriteConsumes(s1, script); }
  }

  lemma PostedPumps(s: State, script: seq<Reply>) returns (n: nat)
    requires Quiet(s)
    ensures var s' := Step(s, Posted(script));
            && !s'.h.signaled
            && if s.writing then s'.h == s.h.(signaled := false) else PumpedTo(s.h, s', script, n)
  {
    n := 0;
    var s1 := s.(h := s.h.(signaled := false));
    if !s.writing {
      OnWriteKeeps(s1.h, script);
      n := DoWriteConsumes(s1, script);
    }
  }

  lemma WrittenPumps(s: State, script: seq<Reply>) returns (n: nat)
    requires Quiet(s) && s.outstanding > 0
    ensures PumpedTo(s.h, Step(s, WriteDone(true, script)), script, n)
  {
    n := DoWriteConsumes(s.(outstanding := 0, completed := s.completed + s.out, out := [], writing := false), script);
  }

  /**
    What nghttp2 has been given reaches the pump: a handled read, a finished write and a posted write each take the chunks
    mem_send has ready, up to the buffer's size, unless another write is under way, whose completion does it then. A
    posted write is no longer posted, and a failure of mem_send stops the connection.
  */
  lemma StepPumps(s: State, e: Event) returns (n: nat)
    requires Quiet(s) && Enabled(s, e) && (IsFirst(e) || (e.WriteDone? && e.ok) || e.Posted?)
    ensures var s', h := Step(s, e), if e.ReadDone? then s.h.(lib := e.lib) else s.h;
            && (if s.writing && !e.WriteDone? then s'.h.produced == h.produced && s'.h.lib == h.lib
                else PumpedTo(h, s', e.script, n))
            && (e.Posted? ==> !s'.h.signaled)
  {
    match e
    case ReadDone(ok, calls, lib, accepted, script) =>
      assert ok && accepted;
      n := ReadPumps(s.(reading := false), calls, lib, script);
    case WriteDone(ok, script) =>
      assert ok;
      n := WrittenPumps(s, script);
    case Posted(script) => n := PostedPumps(s, script);
  }

  // ---------------------------------------------------------------- reading and failing

  /** A connection that runs has a read under way. */
  predicate Listening(s: State) {
    !s.stopped ==> s.reading
  }

  /** Every event that ends a read begins the next one or stops the connection. */
  lemma StepListens(s: State, e: Event)
    requires Quiet(s) && Enabled(s, e) && Listening(s)
    ensures Listening(Step(s, e))
  {
  }

  /**
    A failed read or write, a read that nghttp2 refuses and an expired deadline stop the connection and complete no write;
    and a stopped connection stays stopped.
  */
  lemma FailureStops(s: State, e: Event)
    requires Quiet(s) && Enabled(s, e)
    ensures (e.ReadDone? && (!e.ok || !e.accepted)) || (e.WriteDone? && !e.ok) || (e.Deadline? && e.expired) ==>
              Step(s, e).stopped && Step(s, e).completed == s.completed
    ensures s.stopped ==> Step(s, e).stopped
  {
  }

  /** A first read has been handled. */
  predicate Handled(events: seq<Event>) {
    exists i | 0 <= i < |events| :: IsFirst(events[i])
  }

  /**
    Safety over whole runs of a connection, and a read under way unless it has stopped. Whether it has started, which the
    wakeup depends on, is told by the events.
  */
  lemma {:induction false} EveryRunIsQuiet(lib: Lib, ok: bool, events: seq<Event>)
    requires IsRun(Started(lib, ok), events)
    ensures var s := Run(Started(lib, ok), events); Quiet(s) && Listening(s) && (s.started <==> Handled(events))
    decreases |events|
  {
    RunStarts(Started(lib, ok), events);
    if events != [] {
      var front, last := events[..|events| - 1], events[|events| - 1];
      forall i | 0 <= i < |front| ensures Enabled(Run(Started(lib, ok), front[..i]), front[i]) {
        assert front[..i] == events[..i];
      }
      EveryRunIsQuiet(lib, ok, front);
      StepKeeps(Run(Started(lib, ok), front), last);
      StepListens(Run(Started(lib, ok), front), last);
    }
  }

  lemma {:induction false} RunStarts(s: State, events: seq<Event>)
    requires !s.started
    ensures Run(s, events).started <==> Handled(events)
    decreases |events|
  {
    if events != [] {
      var front, last := events[..|events| - 1], events[|events| - 1];
      RunStarts(s, front);
      assert Step(Run(s, front), last).started <==> Run(s, front).started || IsFirst(last) by {
        StepStarts(Run(s, front), last);
      }
      assert Handled(events) <==> Handled(front) || IsFirst(last) by { HandledSnoc(front, last, events); }
    }
  }

  predicate IsFirst(e: Event) {
    e.ReadDone? && e.ok && e.accepted
  }

  lemma DoWriteStarts(s: State, script: seq<Reply>)
    ensures DoWrite(s, script).started == s.started
  {
  }

  lemma StepStarts(s: State, e: Event)
    ensures Step(s, e).started <==> s.started || IsFirst(e)
  {
    match e
    case ReadDone(ok, calls, lib, accepted, script) =>
      ReadStarts(s.(reading := false), ok, calls, lib, accepted, script);
    case WriteDone(ok, script) =>
      WriteStarts(s.(outstanding := if s.outstanding > 0 then s.outstanding - 1 else 0), ok, script);
    case Posted(script) => DoWriteStarts(s.(h := s.h.(signaled := false)), script);
    case _ =>
  }

  lemma ReadStarts(s: State, ok: bool, calls: seq<ServerCall>, lib: Lib, accepted: bool, script: seq<Reply>)
    ensures HandleRead(s, ok, calls, lib, accepted, script).started <==> s.started || (ok && accepted)
  {
    DoWriteStarts(s.(h := Leave(RunCalls(Enter(s.h), calls).(lib := lib)), started := true), script);
  }

  lemma WriteStarts(s: State, ok: bool, script: seq<Reply>)
    ensures HandleWritten(s, ok, script).started == s.started
  {
    DoWriteStarts(s.(completed := s.completed + s.out, out := [], writing := false), script);
  }

  lemma HandledSnoc(front: seq<Event>, last: Event, events: seq<Event>)
    requires events == front + [last]
    ensures Handled(events) <==> Handled(front) || IsFirst(last)
  {
    if Handled(front) {
      var i :| 0 <= i < |front| && IsFirst(front[i]);
      assert events[i] == front[i];
    }
    if IsFirst(last) { assert events[|front|] == last; }
  }
}

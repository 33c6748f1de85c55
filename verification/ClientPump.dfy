/**
  The client session's write pump and callback guard (lib/asio_client_session_impl.cc) as a step system over values.
  User callbacks may call the API from anywhere, so DoWrite, Pump, RunCalls and ApiCall call each other as the source
  does; only the guard keeps them from doing it for ever.
*/
module ClientPump {
  import opened Basics
  import opened Nghttp2

  /** Why the session stopped. */
  datatype Cause = Running | Drained | Failed

  /**
    The session's fields, and what an observer records: wb holds wb_[..wblen_]; produced is everything mem_send
    returned, completed what finished writes carried; outstanding counts socket writes under way. fault is set when a
    guard assertion of the source fails, when mem_send is called while a chunk is parked, or when the session stops for
    want of work with something unsent. errors and connects count the calls of the user's error and connect callbacks.
  */
  datatype State = State(
    wb: Bytes, pending: Option<Bytes>, writing: bool, insideCallback: bool, stopped: bool, reading: bool,
    lib: Lib, produced: Bytes, completed: Bytes, outstanding: nat, cause: Cause, fault: bool, errors: nat, connects: nat)

  // ---------------------------------------------------------------- the functions of the source

  function EnterCallback(s: State): State {
    s.(insideCallback := true, fault := s.fault || s.insideCallback)
  }

  function LeaveCallback(s: State): State {
    s.(insideCallback := false, fault := s.fault || !s.insideCallback)
  }

  function Stop(s: State, cause: Cause): State {
    if s.stopped then s
    else s.(stopped := true, cause := cause, fault := s.fault || (cause == Drained && Unsent(s)))
  }

  predicate Unsent(s: State) {
    s.lib.sendable || s.wb != [] || s.pending.Some?
  }

  predicate ShouldStop(s: State) {
    !s.writing && !s.lib.wantRead && !s.lib.wantWrite
  }

  /** A user callback that makes these calls one after the other. */
  function RunCalls(s: State, calls: seq<Call>): State
    decreases calls, 0
  {
    if calls == [] then s else RunCalls(ApiCall(s, calls[0]), calls[1..])
  }

  /** submit, write_trailer, cancel, resume or shutdown. */
  function ApiCall(s: State, c: Call): State
    decreases c, 3
  {
    if s.stopped && c.api != WriteTrailer then s
    else if !c.accepted && (c.api == Submit || c.api == WriteTrailer) then s
    else SignalWrite(s.(lib := c.lib), c.script)
  }

  function SignalWrite(s: State, script: seq<Answer>): State
    decreases script, 2
  {
    if s.insideCallback then s else DoWrite(s, script)
  }

  function Reported(s: State): State {
    s.(errors := s.errors + 1)
  }

  function CallErrorCb(s: State, calls: seq<Call>): State
    decreases calls, 1
  {
    if s.stopped then s else RunCalls(Reported(s), calls)
  }

  function DoWrite(s: State, script: seq<Answer>): State
    decreases script, 1
  {
    if s.stopped || s.writing then s
    else AfterPump(LeaveCallback(Pump(EnterCallback(CopyPending(s)), script)))
  }

  function CopyPending(s: State): State {
    if s.pending.None? then s else s.(wb := s.wb + s.pending.value, pending := None)
  }

  /** The for loop around mem_send; when the script is used up mem_send returns 0. */
  function Pump(s: State, script: seq<Answer>): State
    decreases script, 0
  {
    if script == [] then s.(fault := s.fault || s.pending.Some?, lib := Asleep(s.lib))
    else
      var s1 := MemSend(s, script[0]);
      match script[0]
      case Failure(_, _, onError) => Stop(CallErrorCb(s1, onError), Failed)
      case Nothing(_, _) => s1
      case Data(_, _, data) =>
        if |s1.wb| + |data| > BUFFER_SIZE then s1.(pending := Some(data))
        else Pump(s1.(wb := s1.wb + data), script[1..])
  }

  /** nghttp2_session_mem_send: invalidates the chunk it returned last, so no chunk may be parked. */
  function MemSend(s: State, a: Answer): State
    decreases a, 1
  {
    var s1 := RunCalls(s.(fault := s.fault || s.pending.Some?), a.calls);
    s1.(lib := LibAfter(a), produced := s1.produced + if a.Data? then a.data else [])
  }

  /** The end of do_write: stop if all is done, or start the socket write. */
  function AfterPump(s: State): State {
    if s.stopped then s
    else if s.wb == [] then if ShouldStop(s) then Stop(s, Drained) else s
    else s.(writing := true, outstanding := s.outstanding + 1)
  }

  // ---------------------------------------------------------------- events

  datatype Event =
    | ReadDone(ok: bool, calls: seq<Call>, lib: Lib, whole: bool, onError: seq<Call>, script: seq<Answer>)
    | WriteDone(ok: bool, onError: seq<Call>, script: seq<Answer>)
    | UserCall(call: Call)
    | PingTimer(aborted: bool, idle: bool, lib: Lib, script: seq<Answer>)
    | DeadlineTimer(expired: bool, onError: seq<Call>)

  /** A completion arrives only for an operation under way. */
  predicate Enabled(s: State, e: Event) {
    match e
    case ReadDone(_, _, _, _, _, _) => s.reading
    case WriteDone(_, _, _) => s.outstanding > 0
    case _ => true
  }

  function Step(s: State, e: Event): State {
    match e
    case ReadDone(ok, calls, lib, whole, onError, script) =>
      OnRead(s.(reading := false), ok, calls, lib, whole, onError, script)
    case WriteDone(ok, onError, script) =>
      OnWrite(s.(outstanding := if s.outstanding > 0 then s.outstanding - 1 else 0), ok, onError, script)
    case UserCall(call) => ApiCall(s, call)
    case PingTimer(aborted, idle, lib, script) =>
      if s.stopped || aborted || !idle then s else SignalWrite(s.(lib := lib), script)
    case DeadlineTimer(expired, onError) =>
      if s.stopped || !expired then s else Stop(CallErrorCb(s, onError), Failed)
  }

  /** The handler of do_read's socket read. */
  function OnRead(s: State, ok: bool, calls: seq<Call>, lib: Lib, whole: bool, onError: seq<Call>, script: seq<Answer>)
    : State
  {
    if !ok then Stop(if ShouldStop(s) then s else CallErrorCb(s, onError), Failed)
    else
      var s1 := RunCalls(EnterCallback(s), calls).(lib := lib);
      if !whole then LeaveCallback(Stop(CallErrorCb(s1, onError), Failed))
      else
        var s2 := DoWrite(LeaveCallback(s1), script);
        if ShouldStop(s2) then Stop(s2, Drained) else DoRead(s2)
  }

  function DoRead(s: State): State {
    if s.stopped then s else s.(reading := true)
  }

  /** The handler of do_write's socket write. */
  function OnWrite(s: State, ok: bool, onError: seq<Call>, script: seq<Answer>): State {
    if !ok then Stop(CallErrorCb(s, onError), Failed)
    else DoWrite(s.(completed := s.completed + s.wb, wb := [], writing := false), script)
  }

  /** connected(): SETTINGS are queued, then do_write, do_read and the user's connect callback. */
  function Connected(lib: Lib, script: seq<Answer>, onConnect: seq<Call>): State {
    var s1 := DoRead(DoWrite(Idle(lib), script));
    RunCalls(s1.(connects := s1.connects + 1), onConnect)
  }

  /** A session that has done nothing yet. */
  function Idle(lib: Lib): State {
    State([], None, false, false, false, false, lib, [], [], 0, Running, false, 0, 0)
  }

  function Run(s: State, events: seq<Event>): State {
    if events == [] then s else Step(Run(s, events[..|events| - 1]), events[|events| - 1])
  }

  ghost predicate IsRun(s: State, events: seq<Event>) {
    forall i | 0 <= i < |events| :: Enabled(Run(s, events[..i]), events[i])
  }

  // ---------------------------------------------------------------- invariants

  function Parked(s: State): Bytes {
    if s.pending.Some? then s.pending.value else []
  }

  /** Every byte mem_send returned is, in order, in a finished write, in the buffer or in the parked chunk. */
  predicate Conserved(s: State) {
    s.completed + s.wb + Parked(s) == s.produced && |s.wb| <= BUFFER_SIZE && |Parked(s)| <= BUFFER_SIZE
  }

  /** Holds whenever do_write is entered: nghttp2 may have something to send, and a parked chunk may wait to be copied. */
  predicate Settled(s: State) {
    && Conserved(s) && !s.fault && !s.insideCallback
    && s.outstanding <= 1
    && (!s.stopped ==>
          && s.cause == Running
          && (s.writing <==> s.outstanding == 1) && (s.writing <==> s.wb != []))
    && (s.cause == Drained ==> s.completed == s.produced)
  }

  /** No lost wakeup: with no write under way, nghttp2 has nothing left to send and no chunk is parked. */
  predicate Awake(s: State) {
    !s.stopped && !s.writing ==> !s.lib.sendable && s.pending.None?
  }

  predicate Quiet(s: State) {
    Settled(s) && Awake(s)
  }

  /** A session that runs has a read under way. */
  predicate Listening(s: State) {
    !s.stopped ==> s.reading
  }

  /** Inside the loop around mem_send. */
  predicate Pumping(s: State) {
    && Conserved(s) && !s.fault && s.insideCallback && !s.stopped && !s.writing && s.pending.None?
    && s.outstanding == 0 && s.cause == Running
  }

  // ---------------------------------------------------------------- blocked calls

  /** States in which an API call cannot start the pump. */
  predicate Blocked(s: State) {
    s.insideCallback || s.writing || s.stopped
  }

  /** Equal but for the nghttp2 session. */
  predicate SameButLib(s: State, s': State) {
    s' == s.(lib := s'.lib)
  }

  /** A blocked call reaches nghttp2 and does nothing else; after stop only write_trailer gets that far. */
  lemma BlockedCall(s: State, c: Call)
    requires Blocked(s)
    ensures SameButLib(s, ApiCall(s, c))
    ensures ApiCall(s, c).lib == s.lib || (ApiCall(s, c).lib == c.lib && (s.stopped ==> c.api == WriteTrailer))
    ensures (c.accepted || (c.api != Submit && c.api != WriteTrailer)) && !s.stopped ==> ApiCall(s, c).lib == c.lib
  {
    var s1 := s.(lib := c.lib);
    assert !s.insideCallback ==> DoWrite(s1, c.script) == s1;
    assert SignalWrite(s1, c.script) == s1;
  }

  lemma {:induction false} BlockedCalls(s: State, calls: seq<Call>)
    requires Blocked(s)
    ensures SameButLib(s, RunCalls(s, calls))
    decreases |calls|
  {
    if calls != [] {
      BlockedCall(s, calls[0]);
      BlockedCalls(ApiCall(s, calls[0]), calls[1..]);
    }
  }

  // ---------------------------------------------------------------- the pump

  lemma MemSendKeeps(s: State, a: Answer)
    requires Pumping(s)
    ensures var s' := MemSend(s, a);
            s' == s.(lib := LibAfter(a), produced := s.produced + if a.Data? then a.data else [])
  {
    BlockedCalls(s.(fault := s.fault || s.pending.Some?), a.calls);
  }

  /** After the loop: still inside the guard, everything accounted for, and asleep only if nothing is sendable. */
  predicate Pumped(s: State) {
    && Conserved(s) && !s.fault && s.insideCallback && !s.writing && s.outstanding == 0
    && (s.stopped ==> s.cause == Failed)
    && (!s.stopped ==> s.cause == Running && (s.pending.Some? ==> s.wb != []) && (s.wb == [] ==> !s.lib.sendable))
  }

  lemma ConservedAppend(completed: Bytes, wb: Bytes, data: Bytes)
    ensures completed + (wb + data) + [] == completed + wb + [] + data
    ensures completed + wb + data == completed + wb + [] + data
  {
  }

  lemma {:induction false} PumpKeeps(s: State, script: seq<Answer>)
    requires Pumping(s)
    ensures Pumped(Pump(s, script))
    ensures Pump(s, script).reading == s.reading && Pump(s, script).completed == s.completed
    ensures s.errors <= Pump(s, script).errors && Pump(s, script).connects == s.connects
    decreases |script|
  {
    if script != [] {
      var a := script[0];
      var s1 := MemSend(s, a);
      MemSendKeeps(s, a);
      match a
      case Failure(_, _, onError) =>
        assert s.produced + [] == s.produced;
        BlockedCalls(Reported(s1), onError);
      case Nothing(_, _) => assert s.produced + [] == s.produced;
      case Data(_, _, data) =>
        ConservedAppend(s.completed, s.wb, data);
        if |s1.wb| + |data| <= BUFFER_SIZE {
          PumpKeeps(s1.(wb := s1.wb + data), script[1..]);
        }
    }
  }

  /** The bytes of the chunks in a script */
  function DataOf(script: seq<Answer>): Bytes {
    if script == [] then [] else DataIn(script[0]) + DataOf(script[1..])
  }

  function DataIn(a: Answer): Bytes {
    if a.Data? then a.data else []
  }

  /**
    What the loop leaves behind, in s', of the n answers it has taken, with used bytes in the buffer and the nghttp2
    session lib before them.
  */
  predicate Consumed(s: State, s': State, used: nat, lib: Lib, script: seq<Answer>, n: nat) {
    && n <= |script| && s'.produced == s.produced + DataOf(script[..n]) && EndsAt(used, script, n)
    && (s'.cause == Failed <==> n > 0 && script[n - 1].Failure?)
    && (s'.cause != Failed ==> LibEnds(s'.lib, lib, script, n))
  }

  /** The session is as the last answer left it, and asleep where mem_send had no more. */
  predicate LibEnds(after: Lib, before: Lib, script: seq<Answer>, n: nat)
    requires n <= |script|
  {
    var last := if n == 0 then before else LibAfter(script[n - 1]);
    after == last || (n == |script| && after == Asleep(last))
  }

  /** The loop takes every answer until mem_send has nothing, fails or returns a chunk that does not fit. */
  lemma {:induction false} PumpConsumes(s: State, script: seq<Answer>) returns (n: nat)
    requires Pumping(s)
    ensures Consumed(s, Pump(s, script), |s.wb|, s.lib, script, n)
    decreases |script|
  {
    n := 0;
    if script != [] {
      var a := script[0];
      if a.Data? && |s.wb| + |a.data| <= BUFFER_SIZE {
        PumpPacks(s, script);
        var m := PumpConsumes(Packed(s, a), script[1..]);
        n := m + 1;
        EndsLater(|s.wb|, script, m);
        DataOfFirst(script, n);
        assert s.produced + a.data + DataOf(script[1..n]) == s.produced + DataOf(script[..n]);
        assert script[1..][..m] == script[1..n];
      } else {
        n := 1;
        DataOfFirst(script, 1);
        PumpEnds(s, script);
      }
    }
  }

  /** With used bytes in the buffer, the loop ends after n answers: the script is used up, or mem_send or the buffer is. */
  predicate EndsAt(used: nat, script: seq<Answer>, n: nat)
    requires n <= |script|
  {
    n == |script| || (n > 0 && (!script[n - 1].Data? || used + |DataOf(script[..n])| > BUFFER_SIZE))
  }

  lemma EndsLater(used: nat, script: seq<Answer>, m: nat)
    requires script != [] && script[0].Data? && m < |script| && EndsAt(used + |script[0].data|, script[1..], m)
    ensures EndsAt(used, script, m + 1)
  {
    DataOfFirst(script, m + 1);
    assert script[1..][..m] == script[1..m + 1];
  }

  /** The session after a chunk that fits. */
  function Packed(s: State, a: Answer): State
    requires a.Data?
  {
    s.(lib := a.lib, produced := s.produced + a.data, wb := s.wb + a.data)
  }

  lemma PumpPacks(s: State, script: seq<Answer>)
    requires Pumping(s) && script != [] && script[0].Data? && |s.wb| + |script[0].data| <= BUFFER_SIZE
    ensures Pump(s, script) == Pump(Packed(s, script[0]), script[1..]) && Pumping(Packed(s, script[0]))
  {
    MemSendKeeps(s, script[0]);
    ConservedAppend(s.completed, s.wb, script[0].data);
  }

  lemma PumpEnds(s: State, script: seq<Answer>)
    requires Pumping(s) && script != [] && (script[0].Data? ==> |s.wb| + |script[0].data| > BUFFER_SIZE)
    ensures var s' := Pump(s, script);
            && s'.produced == s.produced + DataIn(script[0]) && (s'.cause == Failed <==> script[0].Failure?)
            && (s'.cause != Failed ==> s'.lib == LibAfter(script[0]))
  {
    MemSendKeeps(s, script[0]);
    if script[0].Failure? { BlockedCalls(Reported(MemSend(s, script[0])), script[0].onError); }
  }

  lemma DataOfFirst(script: seq<Answer>, n: nat)
    requires 0 < n <= |script|
    ensures DataOf(script[..n]) == DataIn(script[0]) + DataOf(script[1..n])
  {
    assert script[..n][1..] == script[1..n];
  }

  /** The pump, whenever it may run, asks mem_send until there is no more, the buffer is full or it fails. */
  lemma DoWriteConsumes(s: State, script: seq<Answer>) returns (n: nat)
    requires Settled(s) && !s.stopped && !s.writing
    ensures Consumed(s, DoWrite(s, script), |Parked(s)|, s.lib, script, n)
  {
    var s1 := EnterCallback(CopyPending(s));
    CopyPendingKeeps(s);
    n := PumpConsumes(s1, script);
    PumpKeeps(s1, script);
    AfterPumpSame(LeaveCallback(Pump(s1, script)));
  }

  lemma AfterPumpSame(s: State)
    requires !s.stopped ==> s.cause == Running
    ensures var s' := AfterPump(s);
            s'.produced == s.produced && s'.lib == s.lib && (s'.cause == Failed <==> s.cause == Failed)
  {
  }

  lemma CopyPendingKeeps(s: State)
    requires Settled(s) && !s.stopped && !s.writing
    ensures Pumping(EnterCallback(CopyPending(s)))
  {
    assert s.completed + [] + Parked(s) == s.completed + Parked(s) + [];
  }

  /** do_write from any settled state: the wakeup is not lost. */
  lemma DoWriteKeeps(s: State, script: seq<Answer>)
    requires Settled(s)
    ensures Quiet(DoWrite(s, script))
    ensures var s' := DoWrite(s, script);
            && s'.reading == s.reading && s'.completed == s.completed && (s.stopped || s.writing ==> s' == s)
            && s.errors <= s'.errors && s'.connects == s.connects
  {
    if !s.stopped && !s.writing {
      CopyPendingKeeps(s);
      PumpKeeps(EnterCallback(CopyPending(s)), script);
    }
  }

  /** A pump that may run stops the session for want of work exactly when it has none and did not fail. */
  lemma DoWriteStops(s: State, script: seq<Answer>)
    requires Settled(s) && !s.stopped && !s.writing
    ensures var s' := DoWrite(s, script); s'.cause == Drained <==> s'.cause != Failed && ShouldStop(s')
  {
    CopyPendingKeeps(s);
    PumpKeeps(EnterCallback(CopyPending(s)), script);
  }

  // ---------------------------------------------------------------- calls and events

  /** An API call outside callbacks leaves the session quiet again: whatever it queued is on its way. */
  lemma ApiCallKeeps(s: State, c: Call)
    requires Quiet(s)
    ensures var s' := ApiCall(s, c);
            && Quiet(s') && s'.reading == s.reading && (s.writing || s.stopped ==> SameButLib(s, s'))
            && s.errors <= s'.errors && s'.connects == s.connects
  {
    if Blocked(s) {
      BlockedCall(s, c);
    } else {
      DoWriteKeeps(s.(lib := c.lib), c.script);
    }
  }

  lemma {:induction false} RunCallsKeeps(s: State, calls: seq<Call>)
    requires Quiet(s)
    ensures var s' := RunCalls(s, calls);
            && Quiet(s') && s'.reading == s.reading && (s.writing || s.stopped ==> SameButLib(s, s'))
            && s.errors <= s'.errors && s'.connects == s.connects
    decreases |calls|
  {
    if calls != [] {
      ApiCallKeeps(s, calls[0]);
      RunCallsKeeps(ApiCall(s, calls[0]), calls[1..]);
    }
  }

  /** The write under way goes on with the same bytes. */
  predicate Untouched(s: State, s': State) {
    s'.writing && s'.wb == s.wb && s'.outstanding == s.outstanding && s'.pending == s.pending
  }

  lemma StopKeeps(s: State)
    requires Quiet(s)
    ensures Quiet(Stop(s, Failed))
  {
  }

  /** Callbacks run by mem_recv change nothing but the nghttp2 session. */
  lemma ReadCallbacks(s: State, calls: seq<Call>, lib: Lib)
    requires Quiet(s)
    ensures RunCalls(EnterCallback(s), calls).(lib := lib) == s.(insideCallback := true, lib := lib)
  {
    BlockedCalls(EnterCallback(s), calls);
  }

  lemma ReadFailedKeeps(s: State, calls: seq<Call>, lib: Lib, whole: bool, onError: seq<Call>, script: seq<Answer>)
    requires Quiet(s)
    ensures var s' := OnRead(s, false, calls, lib, whole, onError, script); Quiet(s') && (s.writing ==> Untouched(s, s'))
  {
    RunCallsKeeps(Reported(s), onError);
  }

  lemma ReadShortKeeps(s: State, calls: seq<Call>, lib: Lib, onError: seq<Call>, script: seq<Answer>)
    requires Quiet(s)
    ensures var s' := OnRead(s, true, calls, lib, false, onError, script); Quiet(s') && (s.writing ==> Untouched(s, s'))
  {
    ReadCallbacks(s, calls, lib);
    BlockedCalls(Reported(s.(insideCallback := true, lib := lib)), onError);
  }

  lemma ReadWholeKeeps(s: State, calls: seq<Call>, lib: Lib, onError: seq<Call>, script: seq<Answer>)
    requires Quiet(s)
    ensures var s' := OnRead(s, true, calls, lib, true, onError, script); Quiet(s') && (s.writing ==> Untouched(s, s'))
  {
    ReadCallbacks(s, calls, lib);
    DoWriteKeeps(s.(lib := lib), script);
  }

  /** The read handler: failed, short and whole reads. */
  lemma OnReadKeeps(s: State, ok: bool, calls: seq<Call>, lib: Lib, whole: bool, onError: seq<Call>, script: seq<Answer>)
    requires Quiet(s)
    ensures var s' := OnRead(s, ok, calls, lib, whole, onError, script); Quiet(s') && (s.writing ==> Untouched(s, s'))
  {
    if !ok {
      ReadFailedKeeps(s, calls, lib, whole, onError, script);
    } else if !whole {
      ReadShortKeeps(s, calls, lib, onError, script);
    } else {
      ReadWholeKeeps(s, calls, lib, onError, script);
    }
  }

  lemma OnWriteKeeps(s: State, ok: bool, onError: seq<Call>, script: seq<Answer>)
    requires Quiet(s) && s.outstanding == 1
    ensures Quiet(OnWrite(s.(outstanding := 0), ok, onError, script))
  {
    var s0 := s.(outstanding := 0);
    if !ok {
      if !s.stopped { BlockedCalls(Reported(s0), onError); }
    } else {
      var s1 := s0.(completed := s.completed + s.wb, wb := [], writing := false);
      assert s.completed + s.wb + [] + Parked(s) == s.completed + s.wb + Parked(s);
      DoWriteKeeps(s1, script);
    }
  }

  /**
    Every event keeps the session quiet: no byte is lost or reordered, no wakeup is lost, no guard assertion fails and
    no stop for want of work leaves anything unsent. The buffer of a write under way is not touched.
  */
  lemma StepKeeps(s: State, e: Event)
    requires Quiet(s) && Enabled(s, e)
    ensures Quiet(Step(s, e))
    ensures s.writing && !e.WriteDone? ==> Untouched(s, Step(s, e))
  {
    match e
    case ReadDone(ok, calls, lib, whole, onError, script) =>
      OnReadKeeps(s.(reading := false), ok, calls, lib, whole, onError, script);
    case WriteDone(ok, onError, script) => OnWriteKeeps(s, ok, onError, script);
    case UserCall(call) => ApiCallKeeps(s, call);
    case PingTimer(_, _, lib, script) => DoWriteKeeps(s.(lib := lib), script);
    case DeadlineTimer(_, onError) => RunCallsKeeps(Reported(s), onError);
  }

  /**
    A running session that reads or writes successfully stops for want of work exactly when no write is under way and
    nghttp2 wants neither to read nor to write. Otherwise, unless it failed, reading goes on: a handled read begins the
    next one, and a handled write leaves the read under way alone.
  */
  lemma StopsWhenDone(s: State, e: Event)
    requires Quiet(s) && Enabled(s, e) && !s.stopped
    requires (e.ReadDone? && e.ok && e.whole) || (e.WriteDone? && e.ok)
    ensures var s' := Step(s, e);
            && (s'.cause == Drained <==> s'.cause != Failed && !s'.writing && !s'.lib.wantRead && !s'.lib.wantWrite)
            && (e.ReadDone? && !s'.stopped ==> s'.reading)
            && (e.WriteDone? ==> s'.reading == s.reading)
  {
    match e
    case ReadDone(_, calls, lib, _, _, script) =>
      ReadCallbacks(s.(reading := false), calls, lib);
      var s1 := s.(reading := false, lib := lib);
      DoWriteKeeps(s1, script);
      if !s.writing { DoWriteStops(s1, script); }
    case WriteDone(_, _, script) =>
      var s1 := s.(outstanding := 0, completed := s.completed + s.wb, wb := [], writing := false);
      assert s.completed + s.wb + [] + Parked(s) == s.completed + s.wb + Parked(s);
      DoWriteStops(s1, script);
      DoWriteKeeps(s1, script);
  }

  /** The session goes on reading: every event that ends a read begins the next one or stops the session. */
  lemma StepListens(s: State, e: Event)
    requires Quiet(s) && Enabled(s, e) && Listening(s)
    ensures Listening(Step(s, e)) && Step(s, e).connects == s.connects
  {
    match e
    case ReadDone(ok, calls, lib, whole, onError, script) => ReadListens(s, ok, calls, lib, whole, onError, script);
    case WriteDone(ok, onError, script) => WriteListens(s, ok, onError, script);
    case UserCall(call) => ApiCallKeeps(s, call);
    case PingTimer(_, _, lib, script) => DoWriteKeeps(s.(lib := lib), script);
    case DeadlineTimer(_, onError) => RunCallsKeeps(Reported(s), onError);
  }

  lemma ReadListens(s: State, ok: bool, calls: seq<Call>, lib: Lib, whole: bool, onError: seq<Call>, script: seq<Answer>)
    requires Quiet(s)
    ensures var s' := Step(s, ReadDone(ok, calls, lib, whole, onError, script));
            Listening(s') && s'.connects == s.connects && (!ok || !whole ==> s'.stopped)
  {
    var s0 := s.(reading := false);
    if !ok {
      RunCallsKeeps(Reported(s0), onError);
    } else {
      ReadCallbacks(s0, calls, lib);
      if !whole {
        BlockedCalls(Reported(s0.(insideCallback := true, lib := lib)), onError);
      } else {
        DoWriteKeeps(s0.(lib := lib), script);
      }
    }
  }

  lemma WriteListens(s: State, ok: bool, onError: seq<Call>, script: seq<Answer>)
    requires Quiet(s) && s.outstanding == 1
    ensures var s' := Step(s, WriteDone(ok, onError, script));
            && s'.connects == s.connects && s'.reading == s.reading && (s.stopped ==> s'.stopped)
            && (!ok ==> s'.stopped && s'.completed == s.completed)
  {
    var s0 := s.(outstanding := 0);
    if !ok {
      if !s.stopped { BlockedCalls(Reported(s0), onError); }
    } else {
      var s1 := s0.(completed := s.completed + s.wb, wb := [], writing := false);
      assert s.completed + s.wb + [] + Parked(s) == s.completed + s.wb + Parked(s);
      DoWriteKeeps(s1, script);
    }
  }

  // ---------------------------------------------------------------- progress

  /** The events after which the source has nghttp2 send. */
  predicate Signals(e: Event) {
    match e
    case ReadDone(ok, _, _, whole, _, _) => ok && whole
    case WriteDone(ok, _, _) => ok
    case UserCall(c) => c.accepted || (c.api != Submit && c.api != WriteTrailer)
    case PingTimer(aborted, idle, _, _) => !aborted && idle
    case DeadlineTimer(_, _) => false
  }

  /** What nghttp2 has become when it is asked to send, and what it then answers. */
  function Signalled(s: State, e: Event): (Lib, seq<Answer>)
    requires Signals(e)
  {
    match e
    case ReadDone(_, _, lib, _, _, script) => (lib, script)
    case WriteDone(_, _, script) => (s.lib, script)
    case UserCall(c) => (c.lib, c.script)
    case PingTimer(_, _, lib, script) => (lib, script)
  }

  /**
    What nghttp2 has been given reaches the pump: after each of these events a running session without a write under way
    takes the chunks mem_send has ready, up to the buffer's size, and otherwise leaves them to the completion of the write.
  */
  lemma StepPumps(s: State, e: Event) returns (n: nat)
    requires Quiet(s) && Enabled(s, e) && !s.stopped && Signals(e)
    ensures var (lib, script) := Signalled(s, e);
            if s.writing && !e.WriteDone? then Step(s, e).produced == s.produced && Step(s, e).lib == lib
            else Consumed(s, Step(s, e), |Parked(s)|, lib, script, n)
  {
    n := 0;
    match e
    case ReadDone(ok, calls, lib, whole, onError, script) =>
      assert ok && whole;
      n := ReadPumps(s, calls, lib, onError, script);
    case WriteDone(_, _, script) =>
      assert s.completed + s.wb + [] + Parked(s) == s.completed + s.wb + Parked(s);
      n := DoWriteConsumes(s.(outstanding := 0, completed := s.completed + s.wb, wb := [], writing := false), script);
    case UserCall(c) => n := SignalPumps(s, c.lib, c.script);
    case PingTimer(_, _, lib, script) => n := SignalPumps(s, lib, script);
  }

  lemma SignalPumps(s: State, lib: Lib, script: seq<Answer>) returns (n: nat)
    requires Quiet(s) && !s.stopped
    ensures var s' := SignalWrite(s.(lib := lib), script);
            if s.writing then s'.produced == s.produced && s'.lib == lib
            else Consumed(s, s', |Parked(s)|, lib, script, n)
  {
    n := 0;
    if s.writing {
      DoWriteKeeps(s.(lib := lib), script);
    } else {
      n := DoWriteConsumes(s.(lib := lib), script);
    }
  }

  lemma ReadPumps(s: State, calls: seq<Call>, lib: Lib, onError: seq<Call>, script: seq<Answer>) returns (n: nat)
    requires Quiet(s) && s.reading && !s.stopped
    ensures var s' := Step(s, ReadDone(true, calls, lib, true, onError, script));
            if s.writing then s'.produced == s.produced && s'.lib == lib
            else Consumed(s, s', |Parked(s)|, lib, script, n)
  {
    var s0 := s.(reading := false);
    n := 0;
    ReadCallbacks(s0, calls, lib);
    if s.writing {
      DoWriteKeeps(s0.(lib := lib), script);
    } else {
      n := DoWriteConsumes(s0.(lib := lib), script);
    }
  }

  // ---------------------------------------------------------------- failures

  /** The events that fail. */
  predicate Fails(e: Event) {
    (e.ReadDone? && (!e.ok || !e.whole)) || (e.WriteDone? && !e.ok) || (e.DeadlineTimer? && e.expired)
  }

  /**
    A failed read or write, a read nghttp2 does not take whole and an expired deadline stop the session and complete no
    write. They are reported to the user, except that a read that fails when there is nothing left to do is not, and that
    a stopped session reports nothing.
  */
  lemma FailureStops(s: State, e: Event)
    requires Quiet(s) && Enabled(s, e) && Fails(e)
    ensures Step(s, e).stopped
    ensures e.WriteDone? || s.stopped ==> Step(s, e).completed == s.completed
    ensures s.stopped ==> Step(s, e).errors == s.errors
    ensures !s.stopped && !(e.ReadDone? && !e.ok) ==> Step(s, e).errors > s.errors
    ensures !s.stopped && e.ReadDone? && !e.ok ==>
              if !s.writing && !s.lib.wantRead && !s.lib.wantWrite then Step(s, e).errors == s.errors
              else Step(s, e).errors > s.errors
  {
    match e
    case ReadDone(ok, calls, lib, whole, onError, script) =>
      var s0 := s.(reading := false);
      if !ok {
        RunCallsKeeps(Reported(s0), onError);
      } else {
        ReadCallbacks(s0, calls, lib);
        BlockedCalls(Reported(s0.(insideCallback := true, lib := lib)), onError);
      }
    case WriteDone(ok, onError, script) =>
      if !s.stopped { BlockedCalls(Reported(s.(outstanding := 0)), onError); }
    case DeadlineTimer(_, onError) => RunCallsKeeps(Reported(s), onError);
  }

  /** A ping goes out only from an idle session that runs. */
  lemma PingOnlyWhenIdle(s: State, aborted: bool, idle: bool, lib: Lib, script: seq<Answer>)
    requires Quiet(s) && (s.stopped || aborted || !idle)
    ensures Step(s, PingTimer(aborted, idle, lib, script)) == s
  {
  }

  // ---------------------------------------------------------------- whole runs

  lemma ConnectedIsQuiet(lib: Lib, script: seq<Answer>, onConnect: seq<Call>)
    ensures var s := Connected(lib, script, onConnect); Quiet(s) && Listening(s) && s.connects == 1
  {
    var s1 := DoRead(DoWrite(Idle(lib), script));
    DoWriteKeeps(Idle(lib), script);
    RunCallsKeeps(s1.(connects := s1.connects + 1), onConnect);
    ConnectedListens(s1.(connects := s1.connects + 1), onConnect);
  }

  /** API calls do not end a read. */
  lemma ConnectedListens(s: State, calls: seq<Call>)
    requires Quiet(s) && Listening(s)
    ensures Listening(RunCalls(s, calls))
  {
    RunCallsKeeps(s, calls);
    if s.stopped { BlockedCalls(s, calls); }
  }

  /**
    Safety over whole runs: every state reachable from connected is quiet, has a read under way unless it has stopped,
    and has called the connect callback once.
  */
  lemma {:induction false} EveryRunIsQuiet(lib: Lib, script: seq<Answer>, onConnect: seq<Call>, events: seq<Event>)
    requires IsRun(Connected(lib, script, onConnect), events)
    ensures var s := Run(Connected(lib, script, onConnect), events); Quiet(s) && Listening(s) && s.connects == 1
    decreases |events|
  {
    var s := Connected(lib, script, onConnect);
    if events == [] {
      ConnectedIsQuiet(lib, script, onConnect);
    } else {
      var front := events[..|events| - 1];
      forall i | 0 <= i < |front| ensures Enabled(Run(s, front[..i]), front[i]) {
        assert front[..i] == events[..i];
      }
      EveryRunIsQuiet(lib, script, onConnect, front);
      StepKeeps(Run(s, front), events[|events| - 1]);
      StepListens(Run(s, front), events[|events| - 1]);
    }
  }
}

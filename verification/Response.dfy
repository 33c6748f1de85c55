/**
  The server response life cycle: response_impl (lib/asio_server_response_impl.cc), the part of http2_handler that hands
  a response to nghttp2, and the body generators of lib/asio_common.cc.
*/
module Response {
  import opened Basics

  datatype Phase = Initial | HeaderDone | BodyStarted

  /**
    generator_cb: the initial deferred_generator, a string_generator with its captured string and counter, an empty
    function, or a generator of the user's own.
  */
  datatype Generator = DeferredGenerator | StringGenerator(data: Bytes, left: nat) | NoGenerator | UserGenerator(id: int)

  /** expect_response_body */
  predicate ExpectResponseBody(method_: string, status: nat) {
    method_ != "HEAD" && (status == 101 || (status / 100 != 1 && status != 304 && status != 204))
  }

  /**
    The fields of response_impl, and what nghttp2 knows of the stream: how often a response was handed over, whether a
    body provider went with it, whether reading is deferred (stalled if by the initial generator) or has seen EOF.
    delivered is what reads have produced and ended the string of the end() call that took effect. handed is the status a
    response was handed over with, and taken whether nghttp2 took it.
  */
  datatype State = State(
    method_: string, pushed: bool, promiseSent: bool, phase: Phase, status: nat, generator: Generator,
    submitted: nat, hasBody: bool, deferred: bool, stalled: bool, eof: bool, delivered: Bytes, ended: Option<Bytes>,
    handed: Option<nat>, taken: bool)

  function New(method_: string, pushed: bool): State {
    State(method_, pushed, false, Initial, 200, DeferredGenerator, 0, false, false, false, false, [], None, None, false)
  }

  // ---------------------------------------------------------------- operations

  /** start_response; ok says whether nghttp2 takes the response. */
  function StartResponse(s: State, ok: bool): State {
    var body := ExpectResponseBody(s.method_, s.status);
    s.(phase := if body then s.phase else BodyStarted, submitted := s.submitted + 1, hasBody := ok && body,
       handed := Some(s.status), taken := ok)
  }

  function WriteHead(s: State, status: nat, ok: bool): State {
    if s.phase != Initial then s
    else
      var s1 := s.(status := status, phase := HeaderDone);
      if s.pushed && !s.promiseSent then s1 else StartResponse(s1, ok)
  }

  /** resume lets nghttp2 read again. */
  function Resume(s: State): State {
    s.(deferred := false, stalled := false)
  }

  /** end(generator) */
  function End(s: State, g: Generator, ok: bool): State {
    if s.phase == BodyStarted then s
    else
      var s1 := s.(generator := g);
      var s2 := if s.phase == Initial then WriteHead(s1, s.status, ok) else Resume(s1);
      s2.(phase := BodyStarted)
  }

  /** end(string) */
  function EndString(s: State, data: Bytes, ok: bool): State {
    var s1 := End(s, StringGenerator(data, |data|), ok);
    if s.phase == BodyStarted then s1 else s1.(ended := Some(data))
  }

  function PushPromiseSent(s: State, ok: bool): State {
    if s.promiseSent then s
    else if s.phase == Initial then s.(promiseSent := true)
    else StartResponse(s.(promiseSent := true), ok)
  }

  /** What a generator call returns: bytes with a flag, or NGHTTP2_ERR_DEFERRED. */
  datatype ReadResult = Produced(data: Bytes, eof: bool) | Deferred

  /** The bytes a string generator has yet to produce: the last left ones. */
  function Remaining(data: Bytes, left: nat): Bytes {
    data[|data| - Min(left, |data|)..]
  }

  /** call_read with room for len bytes; user says what a generator of the user's own answers. */
  function CallRead(g: Generator, len: nat, user: ReadResult): (ReadResult, Generator) {
    match g
    case DeferredGenerator => (Deferred, g)
    case StringGenerator(data, left) =>
      var n := Min(len, left);
      (Produced(FirstOf(Remaining(data, left), n), left - n == 0), StringGenerator(data, left - n))
    case NoGenerator => (Produced([], true), g)
    case UserGenerator(_) => (user, g)
  }

  function FirstOf(s: Bytes, n: nat): Bytes {
    s[..Min(n, |s|)]
  }

  /** nghttp2 reads the body through the data provider. */
  function Read(s: State, len: nat, user: ReadResult): State {
    var (r, g) := CallRead(s.generator, len, user);
    if r.Deferred? then s.(generator := g, deferred := true, stalled := s.generator.DeferredGenerator?)
    else s.(generator := g, delivered := s.delivered + r.data, eof := r.eof)
  }

  // ---------------------------------------------------------------- events

  datatype Event =
    | HeadWritten(status: nat, ok: bool)
    | EndedWith(data: Bytes, ok: bool)
    | EndedBy(g: Generator, ok: bool)
    | Resumed
    | PromiseSent(ok: bool)
    | BodyRead(len: nat, user: ReadResult)

  /**
    Users pass generators of their own; promises are sent only for pushed streams; nghttp2 reads only a body it was
    given, not deferred and not at EOF.
  */
  predicate Enabled(s: State, e: Event) {
    match e
    case EndedBy(g, _) => g.UserGenerator? || g.NoGenerator?
    case PromiseSent(_) => s.pushed
    case BodyRead(_, _) => s.hasBody && !s.deferred && !s.eof
    case _ => true
  }

  function Step(s: State, e: Event): State {
    match e
    case HeadWritten(status, ok) => WriteHead(s, status, ok)
    case EndedWith(data, ok) => EndString(s, data, ok)
    case EndedBy(g, ok) => End(s, g, ok)
    case Resumed => Resume(s)
    case PromiseSent(ok) => PushPromiseSent(s, ok)
    case BodyRead(len, user) => Read(s, len, user)
  }

  // ---------------------------------------------------------------- what every run keeps

  /** A response is due when its head has been written and, if it is pushed, its promise has been sent. */
  predicate Due(s: State) {
    s.phase != Initial && (s.pushed ==> s.promiseSent)
  }

  predicate Inv(s: State) {
    && s.submitted == (if Due(s) then 1 else 0)
    && (s.hasBody ==> s.submitted == 1)
    && (s.deferred || s.eof || s.delivered != [] ==> s.hasBody)
    && (s.phase == Initial || s.phase == HeaderDone ==>
          s.ended.None? && s.generator == DeferredGenerator && s.delivered == [] && !s.eof)
    && (s.phase == BodyStarted && (s.hasBody || s.submitted == 0) ==> !s.generator.DeferredGenerator?)
    && (s.stalled ==> s.deferred && s.phase == HeaderDone)
    && (s.ended.Some? ==> Delivering(s))
  }

  /** The body is on its way: produced and remaining bytes make up the string, and nothing is deferred. */
  predicate Delivering(s: State)
    requires s.ended.Some?
  {
    && s.phase == BodyStarted && !s.deferred
    && s.generator.StringGenerator? && s.generator.data == s.ended.value && s.generator.left <= |s.ended.value|
    && s.delivered + Remaining(s.ended.value, s.generator.left) == s.ended.value
  }

  lemma NewKeeps(method_: string, pushed: bool)
    ensures Inv(New(method_, pushed))
  {
  }

  lemma ReadKeeps(s: State, len: nat, user: ReadResult)
    requires Inv(s) && Enabled(s, BodyRead(len, user))
    ensures Inv(Read(s, len, user))
  {
    if s.ended.Some? { StringReadKeeps(s, len, user); } else { OtherReadKeeps(s, len, user); }
  }

  lemma StringReadKeeps(s: State, len: nat, user: ReadResult)
    requires Inv(s) && Enabled(s, BodyRead(len, user)) && s.ended.Some?
    ensures Inv(Read(s, len, user))
  {
    ReadMoves(s.delivered, s.ended.value, s.generator.left, Min(len, s.generator.left));
  }

  lemma OtherReadKeeps(s: State, len: nat, user: ReadResult)
    requires Inv(s) && Enabled(s, BodyRead(len, user)) && s.ended.None?
    ensures Inv(Read(s, len, user))
  {
  }

  /** A read moves the first n remaining bytes to the delivered ones. */
  lemma ReadMoves(delivered: Bytes, data: Bytes, left: nat, n: nat)
    requires left <= |data| && n <= left && delivered + Remaining(data, left) == data
    ensures delivered + FirstOf(Remaining(data, left), n) + Remaining(data, left - n) == data
  {
    MoveFirst(delivered, Remaining(data, left), n);
    RemainingAfter(data, left, n);
  }

  lemma MoveFirst(delivered: Bytes, rest: Bytes, n: nat)
    requires n <= |rest|
    ensures delivered + FirstOf(rest, n) + rest[n..] == delivered + rest
  {
  }

  lemma RemainingAfter(data: Bytes, left: nat, n: nat)
    requires n <= left <= |data|
    ensures |Remaining(data, left)| == left && Remaining(data, left)[n..] == Remaining(data, left - n)
  {
  }

  /** A read of a string body flags EOF exactly when it leaves nothing, and makes progress unless it has no room. */
  lemma ReadEof(s: State, len: nat, user: ReadResult)
    requires Inv(s) && Enabled(s, BodyRead(len, user)) && s.ended.Some?
    ensures var s' := Read(s, len, user);
            && (s'.eof <==> s'.delivered == s.ended.value)
            && |s'.delivered| == |s.delivered| + Min(len, |s.ended.value| - |s.delivered|)
  {
    ReadKeeps(s, len, user);
    var s' := Read(s, len, user);
    assert |s'.delivered| + |Remaining(s.ended.value, s'.generator.left)| == |s.ended.value|;
    if s'.delivered == s.ended.value { assert |Remaining(s.ended.value, s'.generator.left)| == 0; }
    if s'.eof { assert Remaining(s.ended.value, 0) == []; }
  }

  /** Every event keeps the invariant; the first end() that takes effect stays; nothing is handed over twice. */
  lemma StepKeeps(s: State, e: Event)
    requires Inv(s) && Enabled(s, e)
    ensures Inv(Step(s, e))
    ensures s.ended.Some? ==> Step(s, e).ended == s.ended
    ensures s.submitted <= Step(s, e).submitted <= 1
    ensures Step(s, e).method_ == s.method_ && Step(s, e).pushed == s.pushed
  {
    match e
    case BodyRead(len, user) => ReadKeeps(s, len, user);
    case EndedWith(data, ok) => EndKeeps(s, StringGenerator(data, |data|), ok);
    case EndedBy(g, ok) => EndKeeps(s, g, ok);
    case HeadWritten(status, ok) => HeadKeeps(s, status, ok);
    case PromiseSent(ok) => PromiseKeeps(s, ok);
    case _ =>
  }

  lemma HeadKeeps(s: State, status: nat, ok: bool)
    requires Inv(s)
    ensures var s' := WriteHead(s, status, ok);
            && Inv(s') && s.submitted <= s'.submitted <= 1 && s'.ended == s.ended
            && s'.method_ == s.method_ && s'.pushed == s.pushed
  {
  }

  lemma PromiseKeeps(s: State, ok: bool)
    requires Inv(s) && s.pushed
    ensures var s' := PushPromiseSent(s, ok);
            && Inv(s') && s.submitted <= s'.submitted <= 1 && s'.ended == s.ended
            && s'.method_ == s.method_ && s'.pushed == s.pushed
  {
  }

  /** end with either kind of generator; a string is recorded. */
  lemma EndKeeps(s: State, g: Generator, ok: bool)
    requires Inv(s) && (g.StringGenerator? ==> g.left == |g.data|) && !g.DeferredGenerator?
    ensures var s' := if g.StringGenerator? then EndString(s, g.data, ok) else End(s, g, ok);
            && Inv(s') && s.submitted <= s'.submitted <= 1 && s'.method_ == s.method_ && s'.pushed == s.pushed
            && (s.ended.Some? ==> s'.ended == s.ended)
  {
    if g.StringGenerator? { assert [] + g.data == g.data; }
  }

  function Run(s: State, events: seq<Event>): State {
    if events == [] then s else Step(Run(s, events[..|events| - 1]), events[|events| - 1])
  }

  ghost predicate IsRun(s: State, events: seq<Event>) {
    forall i | 0 <= i < |events| :: Enabled(Run(s, events[..i]), events[i])
  }

  /** A run ends in an enabled event after a run. */
  lemma RunUnrolls(s: State, events: seq<Event>, front: seq<Event>, e: Event)
    requires IsRun(s, events) && events == front + [e]
    ensures IsRun(s, front) && Enabled(Run(s, front), e) && Run(s, events) == Step(Run(s, front), e)
  {
    assert events[..|front|] == front && events[|front|] == e;
    forall i | 0 <= i < |front| ensures Enabled(Run(s, front[..i]), front[i]) {
      assert front[..i] == events[..i] && events[i] == front[i];
    }
  }

  lemma {:induction false} RunKeeps(method_: string, pushed: bool, events: seq<Event>)
    requires IsRun(New(method_, pushed), events)
    ensures var s := Run(New(method_, pushed), events); Inv(s) && s.method_ == method_ && s.pushed == pushed
    decreases |events|
  {
    if events != [] {
      var s, front, e := New(method_, pushed), events[..|events| - 1], events[|events| - 1];
      RunUnrolls(s, events, front, e);
      RunKeeps(method_, pushed, front);
      StepKeeps(Run(s, front), e);
    }
  }

  // ---------------------------------------------------------------- what the events tell

  /** Statuses and methods whose responses have a body, listed. */
  predicate BodyAllowed(method_: string, status: nat) {
    method_ != "HEAD" && status != 204 && status != 304 && (status < 100 || status == 101 || 200 <= status)
  }

  lemma BodyExpected(method_: string, status: nat)
    ensures ExpectResponseBody(method_, status) <==> BodyAllowed(method_, status)
  {
  }

  predicate IsEnd(e: Event) {
    e.EndedWith? || e.EndedBy?
  }

  /** The status that the events settle: that of the first write_head, unless an end comes before it. */
  function HeadStatus(events: seq<Event>): Option<nat> {
    if events == [] then None
    else
      var before, e := HeadStatus(events[..|events| - 1]), events[|events| - 1];
      if before.Some? then before
      else if e.HeadWritten? then Some(e.status)
      else if IsEnd(e) then Some(200)
      else None
  }

  predicate PromiseWas(events: seq<Event>) {
    exists i | 0 <= i < |events| :: events[i].PromiseSent?
  }

  predicate EndWas(events: seq<Event>) {
    exists i | 0 <= i < |events| :: IsEnd(events[i])
  }

  /** The response is due: its head is settled and, if it is pushed, its promise sent. */
  predicate DueBy(pushed: bool, events: seq<Event>) {
    HeadStatus(events).Some? && (pushed ==> PromiseWas(events))
  }

  /** What nghttp2 answers at the event that makes the response due. */
  predicate TakenBy(pushed: bool, events: seq<Event>) {
    exists i | 0 <= i < |events| :: AnsweredAt(pushed, events, i)
  }

  predicate AnsweredAt(pushed: bool, events: seq<Event>, i: nat)
    requires i < |events|
  {
    DueBy(pushed, events[..i + 1]) && !DueBy(pushed, events[..i]) && Answers(events[i])
  }

  predicate Answers(e: Event) {
    !e.Resumed? && !e.BodyRead? && e.ok
  }

  /** The response is due and has no body. */
  predicate DueWithoutBody(method_: string, pushed: bool, events: seq<Event>) {
    DueBy(pushed, events) && !BodyAllowed(method_, HeadStatus(events).value)
  }

  /** The body that the events settle: that of the first end, unless the response has gone out without one before. */
  function BodyGiven(method_: string, pushed: bool, events: seq<Event>): Option<Generator> {
    if events == [] then None
    else
      var front, e := events[..|events| - 1], events[|events| - 1];
      var before := BodyGiven(method_, pushed, front);
      if before.Some? then before
      else if IsEnd(e) && !EndWas(front) && !DueWithoutBody(method_, pushed, front) then
        Some(if e.EndedBy? then e.g else StringGenerator(e.data, |e.data|))
      else None
  }

  /** The same generator, however far it has been read. */
  predicate SameSource(g: Generator, given: Generator) {
    if given.StringGenerator? then g.StringGenerator? && g.data == given.data else g == given
  }

  /** The state agrees with what the events tell. */
  predicate Told(s: State, events: seq<Event>) {
    && (s.phase != Initial <==> HeadStatus(events).Some?)
    && (s.phase != Initial ==> s.status == HeadStatus(events).value)
    && (s.phase == Initial ==> s.status == 200)
    && (s.promiseSent <==> PromiseWas(events))
    && (s.phase == BodyStarted <==> EndWas(events) || DueWithoutBody(s.method_, s.pushed, events))
    && s.handed == (if DueBy(s.pushed, events) then HeadStatus(events) else None)
    && (s.taken <==> TakenBy(s.pushed, events)) && (s.taken ==> s.handed.Some?)
    && (s.hasBody <==> s.taken && BodyAllowed(s.method_, s.status))
    && var given := BodyGiven(s.method_, s.pushed, events);
    && (given.Some? ==> EndWas(events) && !given.value.DeferredGenerator?)
    && (if given.Some? then SameSource(s.generator, given.value) else s.generator == DeferredGenerator)
    && (s.ended.Some? <==> given.Some? && given.value.StringGenerator?)
    && (s.ended.Some? ==> s.ended.value == given.value.data)
  }

  lemma TakenSnoc(pushed: bool, front: seq<Event>, e: Event, events: seq<Event>)
    requires events == front + [e]
    ensures TakenBy(pushed, events) <==>
              TakenBy(pushed, front) || (DueBy(pushed, events) && !DueBy(pushed, front) && Answers(e))
  {
    assert events[..|front| + 1] == events && events[..|front|] == front && events[|front|] == e;
    forall i: nat | i < |front| ensures AnsweredAt(pushed, events, i) <==> AnsweredAt(pushed, front, i) {
      assert events[..i] == front[..i] && events[..i + 1] == front[..i + 1];
    }
    if TakenBy(pushed, front) {
      var i :| 0 <= i < |front| && AnsweredAt(pushed, front, i);
      assert AnsweredAt(pushed, events, i);
    }
    if DueBy(pushed, events) && !DueBy(pushed, front) && Answers(e) { assert AnsweredAt(pushed, events, |front|); }
  }

  lemma Snoc(front: seq<Event>, e: Event, events: seq<Event>)
    requires events == front + [e]
    ensures events != [] && events[..|events| - 1] == front && events[|events| - 1] == e
    ensures PromiseWas(events) <==> PromiseWas(front) || e.PromiseSent?
    ensures EndWas(events) <==> EndWas(front) || IsEnd(e)
  {
    if PromiseWas(front) {
      var i :| 0 <= i < |front| && front[i].PromiseSent?;
      assert events[i] == front[i];
    }
    if EndWas(front) {
      var i :| 0 <= i < |front| && IsEnd(front[i]);
      assert events[i] == front[i];
    }
    assert events[|front|] == e;
  }

  lemma StepTells(s: State, e: Event, front: seq<Event>, events: seq<Event>)
    requires Inv(s) && Enabled(s, e) && Told(s, front) && events == front + [e]
    ensures Told(Step(s, e), events)
  {
    match e
    case HeadWritten(_, _) => HeadTells(s, e, front, events);
    case EndedWith(_, _) => EndTells(s, e, front, events);
    case EndedBy(_, _) => EndTells(s, e, front, events);
    case PromiseSent(_) => PromiseTells(s, e, front, events);
    case _ => OtherTells(s, e, front, events);
  }

  lemma HeadTells(s: State, e: Event, front: seq<Event>, events: seq<Event>)
    requires Inv(s) && Told(s, front) && events == front + [e] && e.HeadWritten?
    ensures Told(Step(s, e), events)
  {
    Snoc(front, e, events);
    TakenSnoc(s.pushed, front, e, events);
    BodyExpected(s.method_, e.status);
  }

  lemma EndTells(s: State, e: Event, front: seq<Event>, events: seq<Event>)
    requires Inv(s) && Enabled(s, e) && Told(s, front) && events == front + [e] && IsEnd(e)
    ensures Told(Step(s, e), events)
  {
    Snoc(front, e, events);
    TakenSnoc(s.pushed, front, e, events);
    BodyExpected(s.method_, s.status);
  }

  lemma PromiseTells(s: State, e: Event, front: seq<Event>, events: seq<Event>)
    requires Inv(s) && Enabled(s, e) && Told(s, front) && events == front + [e] && e.PromiseSent?
    ensures Told(Step(s, e), events)
  {
    Snoc(front, e, events);
    TakenSnoc(s.pushed, front, e, events);
    BodyExpected(s.method_, s.status);
  }

  /** Resuming and reading change nothing that the events tell. */
  lemma OtherTells(s: State, e: Event, front: seq<Event>, events: seq<Event>)
    requires Inv(s) && Enabled(s, e) && Told(s, front) && events == front + [e] && (e.Resumed? || e.BodyRead?)
    ensures Told(Step(s, e), events)
  {
    Snoc(front, e, events);
    TakenSnoc(s.pushed, front, e, events);
  }

  lemma NewTells(method_: string, pushed: bool)
    ensures Told(New(method_, pushed), [])
  {
  }

  lemma {:induction false} RunTells(method_: string, pushed: bool, events: seq<Event>)
    requires IsRun(New(method_, pushed), events)
    ensures Told(Run(New(method_, pushed), events), events)
    decreases |events|
  {
    if events == [] {
      NewTells(method_, pushed);
    } else {
      var s, front, e := New(method_, pushed), events[..|events| - 1], events[|events| - 1];
      RunUnrolls(s, events, front, e);
      RunTells(method_, pushed, front);
      RunKeeps(method_, pushed, front);
      StepTells(Run(s, front), e, front, events);
    }
  }

  // ---------------------------------------------------------------- deferred bodies

  /** A read at which the body given so far has nothing to say: none is given yet, or the user's generator defers. */
  predicate Defers(given: Option<Generator>, user: ReadResult) {
    given.None? || (given.value.UserGenerator? && user.Deferred?)
  }

  /** The body is deferred: a read was, and neither resume() nor the end() that gives the body has come since. */
  predicate WaitsBy(method_: string, pushed: bool, events: seq<Event>) {
    if events == [] then false
    else
      var front, e := events[..|events| - 1], events[|events| - 1];
      match e
      case BodyRead(_, user) => Defers(BodyGiven(method_, pushed, front), user)
      case Resumed => false
      case _ => WaitsBy(method_, pushed, front) && BodyGiven(method_, pushed, events) == BodyGiven(method_, pushed, front)
  }

  lemma StepWaits(s: State, e: Event, front: seq<Event>, events: seq<Event>)
    requires Inv(s) && Enabled(s, e) && Told(s, front) && events == front + [e]
    requires s.deferred <==> WaitsBy(s.method_, s.pushed, front)
    ensures Step(s, e).deferred <==> WaitsBy(s.method_, s.pushed, events)
  {
    Snoc(front, e, events);
    if e.BodyRead? {
      ReadWaits(s, e.len, e.user, front);
    } else if IsEnd(e) {
      EndWaits(s, e, front, events);
    }
  }

  lemma ReadWaits(s: State, len: nat, user: ReadResult, front: seq<Event>)
    requires Enabled(s, BodyRead(len, user)) && Told(s, front)
    ensures Read(s, len, user).deferred <==> Defers(BodyGiven(s.method_, s.pushed, front), user)
  {
  }

  lemma EndWaits(s: State, e: Event, front: seq<Event>, events: seq<Event>)
    requires Inv(s) && Told(s, front) && events == front + [e] && IsEnd(e)
    ensures Step(s, e).deferred
       <==> s.deferred && BodyGiven(s.method_, s.pushed, events) == BodyGiven(s.method_, s.pushed, front)
  {
    Snoc(front, e, events);
  }

  lemma {:induction false} RunWaits(method_: string, pushed: bool, events: seq<Event>)
    requires IsRun(New(method_, pushed), events)
    ensures Run(New(method_, pushed), events).deferred <==> WaitsBy(method_, pushed, events)
    decreases |events|
  {
    if events != [] {
      var s, front, e := New(method_, pushed), events[..|events| - 1], events[|events| - 1];
      RunUnrolls(s, events, front, e);
      RunWaits(method_, pushed, front);
      RunTells(method_, pushed, front);
      RunKeeps(method_, pushed, front);
      StepWaits(Run(s, front), e, front, events);
    }
  }

  /**
    Over every interleaving of write_head, end, resume, promise-sent events and reads, in terms of the events alone: a
    response is handed to nghttp2 exactly once when its head is settled and any promise sent, and never otherwise, with
    the status of the first write_head or, if an end comes first, 200; a body goes with it exactly if nghttp2 takes it
    and method and status allow one. The body is that of the first end, unless the response went out without one before;
    a string is neither lost nor deferred, no body stays deferred by the initial generator once end() was called, and one
    is deferred exactly until resume() or the end() that gives it.
  */
  lemma EveryResponse(method_: string, pushed: bool, events: seq<Event>)
    requires IsRun(New(method_, pushed), events)
    ensures var s := Run(New(method_, pushed), events);
            var due, given := DueBy(pushed, events), BodyGiven(method_, pushed, events);
            && s.submitted == (if due then 1 else 0)
            && s.handed == (if due then HeadStatus(events) else None)
            && (s.hasBody <==> due && TakenBy(pushed, events) && BodyAllowed(method_, HeadStatus(events).value))
            && (if given.Some? then SameSource(s.generator, given.value) else s.generator == DeferredGenerator)
            && (given.Some? && given.value.StringGenerator? ==> s.delivered <= given.value.data && !s.deferred)
            && (s.deferred <==> WaitsBy(method_, pushed, events))
            && (EndWas(events) ==> !s.stalled && (s.hasBody ==> !s.generator.DeferredGenerator?))
  {
    RunTells(method_, pushed, events);
    RunKeeps(method_, pushed, events);
    RunWaits(method_, pushed, events);
    var s := Run(New(method_, pushed), events);
    if s.ended.Some? {
      assert s.ended.value[..|s.delivered|] == s.delivered;
    }
  }

  /** Reads of other bodies: a generator of the user's is passed on as it answers, an empty one ends the body. */
  lemma ReadOther(s: State, len: nat, user: ReadResult)
    requires Inv(s) && Enabled(s, BodyRead(len, user))
    ensures s.generator.UserGenerator? && user.Produced? ==>
              Read(s, len, user) == s.(delivered := s.delivered + user.data, eof := user.eof)
    ensures s.generator.UserGenerator? && user.Deferred? ==> Read(s, len, user) == s.(deferred := true, stalled := false)
    ensures s.generator.NoGenerator? ==> Read(s, len, user) == s.(eof := true)
  {
    assert s.delivered + [] == s.delivered;
  }
}

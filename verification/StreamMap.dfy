/**
  Stream life time: who enters streams_ and how each stream's user learns that it is closed. Client
  (lib/asio_client_session_impl.cc) and server (lib/asio_server_http2_handler.cc) share the model; only the client has
  streams that nghttp2 already knows but that submit() has not yet put in the map.
*/
module StreamMap {

  /** A stream object, owned by the map. */
  datatype Stream = Stream(id: int)

  /**
    streams is streams_; accepted holds the ids nghttp2_submit_request has returned to a submit() still on the stack;
    used is every id nghttp2 ever gave out or announced, entered every id that was put in the map, notified the calls of
    on_close in order. fault is set when assert(p.second) fails.
  */
  datatype State = State(
    streams: map<int, Stream>, accepted: set<int>, used: set<int>, entered: set<int>, notified: seq<int>, fault: bool)

  datatype Event =
    | Accept(id: int)       // nghttp2_submit_request returns id
    | Insert(id: int)       // submit() goes on and puts the stream in the map
    | Create(id: int)       // a pushed stream (client), a request or a promise (server) enters the map at once
    | Close(id: int)        // on_stream_close_callback

  function Emplace(s: State, id: int): State {
    s.(streams := if id in s.streams then s.streams else s.streams[id := Stream(id)],
       entered := s.entered + {id}, fault := s.fault || id in s.streams)
  }

  /** pop_stream and call_on_close; a stream that is not in the map gets no notification. */
  function CloseStream(s: State, id: int): State {
    if id !in s.streams then s else s.(streams := s.streams - {id}, notified := s.notified + [id])
  }

  /** nghttp2 never gives an id twice, and submit() inserts only what was accepted. */
  predicate Enabled(s: State, e: Event) {
    match e
    case Accept(id) => id !in s.used
    case Insert(id) => id in s.accepted
    case Create(id) => id !in s.used
    case Close(_) => true
  }

  function Step(s: State, e: Event): State {
    match e
    case Accept(id) => s.(accepted := s.accepted + {id}, used := s.used + {id})
    case Insert(id) => Emplace(s.(accepted := s.accepted - {id}), id)
    case Create(id) => Emplace(s.(used := s.used + {id}), id)
    case Close(id) => CloseStream(s, id)
  }

  const New: State := State(map[], {}, {}, {}, [], false)

  function Run(events: seq<Event>): State {
    if events == [] then New else Step(Run(events[..|events| - 1]), events[|events| - 1])
  }

  ghost predicate IsRun(events: seq<Event>) {
    forall i | 0 <= i < |events| :: Enabled(Run(events[..i]), events[i])
  }

  /** How often id was notified */
  function Count(log: seq<int>, id: int): nat {
    if log == [] then 0 else Count(log[..|log| - 1], id) + if log[|log| - 1] == id then 1 else 0
  }

  /** A stream that entered has been notified once if it has left the map again, and not at all if not. */
  predicate Once(s: State, id: int) {
    Count(s.notified, id) == if id in s.entered && id !in s.streams then 1 else 0
  }

  ghost predicate Inv(s: State) {
    && !s.fault
    && s.streams.Keys <= s.entered <= s.used && s.accepted <= s.used && s.accepted !! s.entered
    && forall id: int :: Once(s, id)
  }

  lemma CountSnoc(log: seq<int>, x: int, id: int)
    ensures Count(log + [x], id) == Count(log, id) + if x == id then 1 else 0
  {
    assert (log + [x])[..|log|] == log;
  }

  lemma CloseKeeps(s: State, id: int)
    requires Inv(s)
    ensures Inv(CloseStream(s, id))
  {
    if id in s.streams {
      var s' := CloseStream(s, id);
      assert s'.streams.Keys <= s'.entered;
      forall x: int ensures Once(s', x) { CloseOnce(s, id, x); }
    }
  }

  lemma CloseOnce(s: State, id: int, x: int)
    requires Once(s, x) && id in s.streams && id in s.entered
    ensures Once(CloseStream(s, id), x)
  {
    CountSnoc(s.notified, id, x);
  }

  lemma EmplaceKeeps(s: State, id: int)
    requires Inv(s) && id !in s.entered && id in s.used && id !in s.accepted
    ensures Inv(Emplace(s, id))
  {
    var s' := Emplace(s, id);
    forall x: int ensures Once(s', x) { assert Once(s, x); }
  }

  lemma SameLog(s: State, s': State)
    requires Inv(s) && s'.notified == s.notified && s'.streams == s.streams && s'.entered == s.entered && !s'.fault
    requires s'.entered <= s'.used && s'.accepted <= s'.used && s'.accepted !! s'.entered
    ensures Inv(s')
  {
    forall x: int ensures Once(s', x) { assert Once(s, x); }
  }

  lemma StepKeeps(s: State, e: Event)
    requires Inv(s) && Enabled(s, e)
    ensures Inv(Step(s, e))
  {
    match e
    case Accept(id) => SameLog(s, Step(s, e));
    case Insert(id) =>
      SameLog(s, s.(accepted := s.accepted - {id}));
      EmplaceKeeps(s.(accepted := s.accepted - {id}), id);
    case Create(id) =>
      SameLog(s, s.(used := s.used + {id}));
      EmplaceKeeps(s.(used := s.used + {id}), id);
    case Close(id) => CloseKeeps(s, id);
  }

  lemma {:induction false} RunKeeps(events: seq<Event>)
    requires IsRun(events)
    ensures Inv(Run(events))
    decreases |events|
  {
    if events == [] {
      forall x: int ensures Once(New, x) {}
    } else {
      var front := events[..|events| - 1];
      forall i | 0 <= i < |front| ensures Enabled(Run(front[..i]), front[i]) {
        assert front[..i] == events[..i];
      }
      RunKeeps(front);
      StepKeeps(Run(front), events[|events| - 1]);
    }
  }

  // ---------------------------------------------------------------- what the events tell

  predicate Enters(e: Event, id: int) {
    e == Insert(id) || e == Create(id)
  }

  predicate EnteredBy(events: seq<Event>, id: int) {
    exists i | 0 <= i < |events| :: Enters(events[i], id)
  }

  /** The stream was put in the map by the event at i and has not been closed since. */
  predicate OpenSince(events: seq<Event>, id: int, i: nat)
    requires i < |events|
  {
    Enters(events[i], id) && Close(id) !in events[i + 1..]
  }

  predicate OpenBy(events: seq<Event>, id: int) {
    exists i: nat | i < |events| :: OpenSince(events, id, i)
  }

  lemma EnteredSnoc(front: seq<Event>, e: Event, id: int)
    ensures EnteredBy(front + [e], id) <==> EnteredBy(front, id) || Enters(e, id)
  {
    var events := front + [e];
    if EnteredBy(front, id) {
      var i :| 0 <= i < |front| && Enters(front[i], id);
      assert events[i] == front[i];
    }
    assert events[|front|] == e;
  }

  lemma OpenSnoc(front: seq<Event>, e: Event, id: int)
    ensures OpenBy(front + [e], id) <==> Enters(e, id) || (OpenBy(front, id) && e != Close(id))
  {
    var events := front + [e];
    assert events[|front|] == e && events[|front| + 1..] == [];
    forall i: nat | i < |front| ensures OpenSince(events, id, i) <==> OpenSince(front, id, i) && e != Close(id) {
      assert events[i + 1..] == front[i + 1..] + [e];
    }
    if Enters(e, id) { assert OpenSince(events, id, |front|); }
  }

  /**
    For any events, one by one: the streams that have entered are those of the insertions and creations, and the map holds
    those that have not been closed since.
  */
  lemma {:induction false} RunTells(events: seq<Event>, id: int)
    ensures id in Run(events).entered <==> EnteredBy(events, id)
    ensures id in Run(events).streams <==> OpenBy(events, id)
    decreases |events|
  {
    if events != [] {
      var front, e := events[..|events| - 1], events[|events| - 1];
      assert events == front + [e];
      RunTells(front, id);
      EnteredSnoc(front, e, id);
      OpenSnoc(front, e, id);
    }
  }

  /** At any time of every run, exactly the streams that entered and have been closed since are notified, once. */
  lemma NotifiedWhenClosed(events: seq<Event>, id: int)
    requires IsRun(events)
    ensures Count(Run(events).notified, id) == if EnteredBy(events, id) && !OpenBy(events, id) then 1 else 0
  {
    RunKeeps(events);
    RunTells(events, id);
    assert Once(Run(events), id);
  }

  // ---------------------------------------------------------------- destruction

  /** The destructor notifies the streams still in the map, in the order of ids. */
  function Destroyed(s: State, ids: seq<int>): State {
    if ids == [] then s else CloseStream(Destroyed(s, ids[..|ids| - 1]), ids[|ids| - 1])
  }

  lemma {:induction false} DestroyedKeeps(s: State, ids: seq<int>)
    requires Inv(s)
    ensures Inv(Destroyed(s, ids))
    ensures Destroyed(s, ids).entered == s.entered
    ensures forall x: int :: x in Destroyed(s, ids).streams <==> x in s.streams && x !in ids
  {
    if ids != [] {
      var front := ids[..|ids| - 1];
      DestroyedKeeps(s, front);
      CloseKeeps(Destroyed(s, front), ids[|ids| - 1]);
      assert ids == front + [ids[|ids| - 1]];
    }
  }

  /**
    Over every run that ends in destruction, every stream that an event put in the map is notified exactly once, and no
    other stream at all. ids is any enumeration of the streams left, as the destructor's loop visits them.
  */
  lemma EachNotifiedOnce(events: seq<Event>, ids: seq<int>, id: int)
    requires IsRun(events) && forall x :: x in Run(events).streams ==> x in ids
    ensures Count(Destroyed(Run(events), ids).notified, id) == if EnteredBy(events, id) then 1 else 0
  {
    RunKeeps(events);
    RunTells(events, id);
    DestroyedKeeps(Run(events), ids);
    assert Once(Destroyed(Run(events), ids), id);
  }

  /** A close that comes before submit() has inserted the stream is not lost: the destructor makes up for it. */
  lemma EarlyClose(id: int)
    ensures IsRun([Accept(id), Close(id), Insert(id)])
    ensures Destroyed(Run([Accept(id), Close(id), Insert(id)]), [id]).notified == [id]
  {
    var e := [Accept(id), Close(id), Insert(id)];
    assert e[..0] == [] && e[..1] == [Accept(id)] && e[..2] == [Accept(id), Close(id)] && e[..3] == e;
    assert [Accept(id)][..0] == [];
    assert [Accept(id), Close(id)][..1] == [Accept(id)];
    assert Run([Accept(id)]) == Step(New, Accept(id));
    assert Run([Accept(id), Close(id)]) == Run([Accept(id)]);
    assert Run(e) == Step(Run([Accept(id), Close(id)]), Insert(id));
    assert [id][..0] == [];
    assert Destroyed(Run(e), []) == Run(e);
  }

  // ---------------------------------------------------------------- the object

  predicate Distinct(ids: seq<int>) {
    forall i, j | 0 <= i < j < |ids| :: ids[i] != ids[j]
  }

  lemma {:induction false} DestroyedLog(s: State, ids: seq<int>)
    requires Distinct(ids) && forall i | 0 <= i < |ids| :: ids[i] in s.streams
    ensures Destroyed(s, ids).notified == s.notified + ids
    ensures forall x :: x in Destroyed(s, ids).streams <==> x in s.streams && x !in ids
  {
    if ids != [] {
      var front, last := ids[..|ids| - 1], ids[|ids| - 1];
      assert ids == front + [last];
      DestroyedLog(s, front);
      assert s.notified + front + [last] == s.notified + ids;
    } else {
      assert s.notified + ids == s.notified;
    }
  }

  /** session_impl and http2_handler, as far as streams_ goes. */
  class Session {
    var streams: map<int, Stream>
    ghost var accepted: set<int>
    ghost var used: set<int>
    ghost var entered: set<int>
    ghost var notified: seq<int>

    ghost function Abs(): State
      reads this
    {
      State(streams, accepted, used, entered, notified, false)
    }

    constructor ()
      ensures Abs() == New
    {
      streams := map[];
      accepted, used, entered, notified := {}, {}, {}, [];
    }

    /** nghttp2_submit_request inside submit() */
    method SubmitRequest(id: int)
      requires Inv(Abs()) && Enabled(Abs(), Accept(id))
      modifies this
      ensures Abs() == Step(old(Abs()), Accept(id)) && Inv(Abs())
    {
      StepKeeps(Abs(), Accept(id));
      accepted, used := accepted + {id}, used + {id};
    }

    /** The end of submit(): the assertion is the source's assert(p.second). */
    method FinishSubmit(id: int)
      requires Inv(Abs()) && Enabled(Abs(), Insert(id))
      modifies this
      ensures Abs() == Step(old(Abs()), Insert(id)) && Inv(Abs())
    {
      StepKeeps(Abs(), Insert(id));
      assert id !in streams;
      streams := streams[id := Stream(id)];
      accepted, entered := accepted - {id}, entered + {id};
    }

    /** create_push_stream, and create_stream on the server */
    method CreateStream(id: int)
      requires Inv(Abs()) && Enabled(Abs(), Create(id))
      modifies this
      ensures Abs() == Step(old(Abs()), Create(id)) && Inv(Abs())
    {
      StepKeeps(Abs(), Create(id));
      assert id !in streams;
      streams := streams[id := Stream(id)];
      used, entered := used + {id}, entered + {id};
    }

    /** on_stream_close_callback */
    method OnStreamClose(id: int)
      requires Inv(Abs())
      modifies this
      ensures Abs() == Step(old(Abs()), Close(id)) && Inv(Abs())
    {
      StepKeeps(Abs(), Close(id));
      if id !in streams {
        return;
      }
      streams := streams - {id};
      notified := notified + [id];
    }

    /** The destructor's loop: one notification for every stream still in the map. */
    method Destruct() returns (ghost ids: seq<int>)
      requires Inv(Abs())
      modifies this`notified
      ensures Distinct(ids) && forall x :: x in ids <==> x in streams
      ensures notified == Destroyed(old(Abs()), ids).notified
      ensures forall id: int :: Count(notified, id) == if id in entered then 1 else 0
    {
      ids := [];
      var left := streams.Items;
      while left != {}
        invariant left <= streams.Items
        invariant Distinct(ids) && (forall i | 0 <= i < |ids| :: ids[i] in streams)
        invariant forall x | x in streams :: x in ids <==> (x, streams[x]) !in left
        invariant notified == old(notified) + ids
        decreases left
      {
        var item :| item in left;
        left := left - {item};
        assert item.0 in streams && streams[item.0] == item.1;
        notified := notified + [item.0];
        ids := ids + [item.0];
      }
      DestroyedLog(old(Abs()), ids);
      DestroyedKeeps(old(Abs()), ids);
      forall id: int ensures Count(notified, id) == if id in entered then 1 else 0 {
        assert Once(Destroyed(old(Abs()), ids), id);
      }
    }
  }
}

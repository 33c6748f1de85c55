/**
  The server objects of the pump: http2_handler with the parked chunk and the guard, and connection with the output
  buffer. Each method is proved to do what ServerPump says.
*/
module ServerConnection {
  import opened Basics
  import opened Nghttp2
  import P = ServerPump

  class Http2Handler {
    var buf: Option<Bytes>
    var insideCallback: bool
    var writeSignaled: bool
    var lib: Lib
    ghost var produced: Bytes

    /** The handler as a value of the step system. */
    ghost function Abs(): P.Handler
      reads this
    {
      P.Handler(buf, insideCallback, writeSignaled, lib, produced, false)
    }

    constructor (l: Lib)
      ensures Abs() == P.Handler(None, false, false, l, [], false)
    {
      buf := None;
      insideCallback, writeSignaled := false, false;
      lib := l;
      produced := [];
    }

    method EnterCallback()
      requires !insideCallback
      modifies this
      ensures Abs() == P.Enter(old(Abs()))
    {
      assert !insideCallback;
      insideCallback := true;
    }

    method LeaveCallback()
      requires insideCallback
      modifies this
      ensures Abs() == P.Leave(old(Abs()))
    {
      assert insideCallback;
      insideCallback := false;
    }

    /** signal_write; setting the flag stands for the io_service::post that goes with it. */
    method SignalWrite()
      modifies this
      ensures Abs() == P.SignalWrite(old(Abs()))
    {
      if !insideCallback && !writeSignaled {
        writeSignaled := true;
      }
    }

    method ApiCall(c: P.ServerCall)
      modifies this
      ensures Abs() == P.ApiCall(old(Abs()), c)
    {
      if !c.accepted && (c.api == P.StartResponse || c.api == P.SubmitTrailer || c.api == P.PushPromise) {
        return;
      }
      lib := c.lib;
      SignalWrite();
    }

    method RunCalls(calls: seq<P.ServerCall>)
      modifies this
      ensures Abs() == P.RunCalls(old(Abs()), calls)
    {
      ghost var result := P.RunCalls(Abs(), calls);
      var i := 0;
      while i < |calls|
        invariant 0 <= i <= |calls|
        invariant P.RunCalls(Abs(), calls[i..]) == result
      {
        assert calls[i..][0] == calls[i] && calls[i..][1..] == calls[i + 1..];
        ApiCall(calls[i]);
        i := i + 1;
      }
    }

    /** on_read: mem_recv under the guard */
    method OnRead(calls: seq<P.ServerCall>, after: Lib)
      requires !insideCallback
      modifies this
      ensures Abs() == P.Leave(P.RunCalls(P.Enter(old(Abs())), calls).(lib := after))
      ensures Abs() == old(Abs()).(lib := after)
    {
      EnterCallback();
      P.InsideCalls(Abs(), calls);
      RunCalls(calls);
      lib := after;
      LeaveCallback();
    }

    method MemSend(r: P.Reply)
      requires insideCallback && buf.None?
      modifies this
      ensures Abs() == P.MemSend(old(Abs()), r)
    {
      assert buf.None?;
      RunCalls(r.calls);
      lib := P.LibAfterReply(r);
      produced := produced + if r.Data? then r.data else [];
    }

    /** on_write: fills buffer and returns the number of bytes put there. */
    method OnWrite(buffer: array<Byte>, script: seq<P.Reply>) returns (failed: bool, len: nat)
      requires buffer.Length == BUFFER_SIZE && !insideCallback && (buf.Some? ==> |buf.value| <= BUFFER_SIZE)
      modifies this, buffer
      ensures len <= BUFFER_SIZE
      ensures P.OnWrite(old(Abs()), script) == P.Filled(Abs(), buffer[..len], failed)
    {
      ghost var h := Abs();
      EnterCallback();
      len := 0;
      if buf.Some? {
        len := CopyInto(buffer, 0, buf.value);
        buf := None;
      }
      assert buffer[..len] == P.Parked(h);
      failed, len := Fill(buffer, len, script);
      LeaveCallback();
    }

    /** The for loop of on_write. */
    method Fill(buffer: array<Byte>, start: nat, script: seq<P.Reply>) returns (failed: bool, len: nat)
      requires buffer.Length == BUFFER_SIZE && start <= BUFFER_SIZE && insideCallback && buf.None?
      modifies this, buffer
      ensures len <= BUFFER_SIZE && insideCallback
      ensures P.Fill(old(Abs()), old(buffer[..start]), script) == P.Filled(Abs(), buffer[..len], failed)
    {
      ghost var result := P.Fill(Abs(), buffer[..start], script);
      len := start;
      var i := 0;
      while true
        invariant 0 <= i <= |script| && len <= BUFFER_SIZE && insideCallback && buf.None?
        invariant P.Fill(Abs(), buffer[..len], script[i..]) == result
        decreases |script| - i
      {
        if i == |script| {
          lib := Asleep(lib);
          return false, len;
        }
        var r := script[i];
        assert script[i..][0] == r && script[i..][1..] == script[i + 1..];
        P.MemSendKeeps(Abs(), r);
        MemSend(r);
        if r.Failure? {
          return true, len;
        }
        if r.Nothing? {
          return false, len;
        }
        if len + |r.data| > BUFFER_SIZE {
          buf := Some(r.data);
          return false, len;
        }
        len := CopyInto(buffer, len, r.data);
        i := i + 1;
      }
    }

    method ShouldStop() returns (r: bool)
      ensures r <==> P.ShouldStop(Abs())
    {
      r := !lib.wantRead && !lib.wantWrite;
    }
  }

  class Connection {
    const handler: Http2Handler
    const outbuf: array<Byte>
    var writing: bool
    var stopped: bool
    ghost var nwrite: nat
    ghost var reading: bool
    ghost var started: bool
    ghost var completed: Bytes
    ghost var outstanding: nat

    ghost predicate Valid()
      reads this
    {
      outbuf.Length == BUFFER_SIZE && nwrite <= BUFFER_SIZE
    }

    ghost function Abs(): P.State
      requires Valid()
      reads this, handler, outbuf
    {
      P.State(handler.Abs(), outbuf[..nwrite], writing, stopped, reading, started, completed, outstanding, false)
    }

    /** The connection after start(); ok says whether the handler started. */
    constructor (l: Lib, ok: bool)
      ensures Valid() && fresh(handler) && fresh(outbuf) && Abs() == P.Started(l, ok)
    {
      handler := new Http2Handler(l);
      outbuf := new Byte[BUFFER_SIZE];
      writing, stopped := false, !ok;
      nwrite, reading, started, completed, outstanding := 0, ok, false, [], 0;
    }

    method Stop(ghost drained: bool)
      requires Valid()
      requires drained && !stopped ==> !handler.lib.sendable && handler.buf.None? && nwrite == 0
      modifies this
      ensures Valid() && Abs() == P.Stop(old(Abs()), drained)
    {
      if stopped {
        return;
      }
      stopped := true;
    }

    method DoWrite(script: seq<P.Reply>)
      requires Valid() && P.Safe(Abs()) && (!stopped ==> P.Settled(Abs()))
      modifies this, handler, outbuf
      ensures Valid() && Abs() == P.DoWrite(old(Abs()), script)
    {
      if writing {
        return;
      }
      ghost var s := Abs();
      P.OnWriteKeeps(s.h, script);
      var failed, n := handler.OnWrite(outbuf, script);
      if failed {
        nwrite := 0;  // what was put in outbuf_ is never sent
        Stop(false);
        return;
      }
      nwrite := n;
      if n == 0 {
        var stop := handler.ShouldStop();
        if stop {
          Stop(true);
        }
        return;
      }
      writing := true;
      outstanding := outstanding + 1;
    }

    /** do_read's completion handler */
    method HandleRead(ok: bool, calls: seq<P.ServerCall>, after: Lib, accepted: bool, script: seq<P.Reply>)
      requires Valid() && P.Quiet(Abs()) && reading
      modifies this, handler, outbuf
      ensures Valid() && P.Quiet(Abs())
      ensures Abs() == P.Step(old(Abs()), P.ReadDone(ok, calls, after, accepted, script))
    {
      P.StepKeeps(Abs(), P.ReadDone(ok, calls, after, accepted, script));
      reading := false;
      if !ok {
        Stop(false);
        return;
      }
      ReadSome(calls, after, accepted, script);
    }

    /** The handler when some bytes have been read. */
    method ReadSome(calls: seq<P.ServerCall>, after: Lib, accepted: bool, script: seq<P.Reply>)
      requires Valid() && P.Quiet(Abs())
      modifies this, handler, outbuf
      ensures Valid()
      ensures Abs() == P.HandleRead(old(Abs()), true, calls, after, accepted, script)
    {
      ghost var s := Abs();
      P.InsideCalls(P.Enter(s.h), calls);
      handler.OnRead(calls, after);
      assert Abs() == s.(h := s.h.(lib := after));
      if !accepted {
        Stop(false);
        return;
      }
      started := true;
      AfterRead(script);
    }

    /** The end of do_read's handler. */
    method AfterRead(script: seq<P.Reply>)
      requires Valid() && P.Safe(Abs()) && (!stopped ==> P.Settled(Abs()))
      modifies this, handler, outbuf
      ensures Valid()
      ensures var s2 := P.DoWrite(old(Abs()), script);
              Abs() == if !s2.writing && P.ShouldStop(s2.h) then P.Stop(s2, true) else s2.(reading := true)
    {
      P.DoWriteKeeps(Abs(), script);
      DoWrite(script);
      var stop := handler.ShouldStop();
      if !writing && stop {
        Stop(true);
        return;
      }
      reading := true;
    }

    /** do_write's completion handler */
    method HandleWritten(ok: bool, script: seq<P.Reply>)
      requires Valid() && P.Quiet(Abs()) && outstanding == 1
      modifies this, handler, outbuf
      ensures Valid() && P.Quiet(Abs())
      ensures Abs() == P.Step(old(Abs()), P.WriteDone(ok, script))
    {
      ghost var s := Abs();
      P.HandleWrittenKeeps(s, ok, script);
      outstanding := 0;
      if !ok {
        Stop(false);
        return;
      }
      completed := completed + outbuf[..nwrite];
      nwrite := 0;
      writing := false;
      assert s.completed + s.out + [] + P.Parked(s.h) == s.completed + s.out + P.Parked(s.h);
      assert Abs() == s.(outstanding := 0, completed := s.completed + s.out, out := [], writing := false);
      DoWrite(script);
    }

    /** initiate_write, run from the io_service queue */
    method InitiateWrite(script: seq<P.Reply>)
      requires Valid() && P.Quiet(Abs()) && handler.writeSignaled
      modifies this, handler, outbuf
      ensures Valid() && P.Quiet(Abs()) && Abs() == P.Step(old(Abs()), P.Posted(script))
    {
      P.StepKeeps(Abs(), P.Posted(script));
      handler.writeSignaled := false;
      DoWrite(script);
    }
  }
}

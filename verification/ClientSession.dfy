/**
  The client session object: the fields of session_impl that the pump uses and the methods that update them in place,
  each proved to do what ClientPump says. `assert` statements in EnterCallback, LeaveCallback and MemSend are the
  guard assertions of the source and nghttp2's rule about the chunk it handed out last.
*/
module ClientSession {
  import opened Basics
  import opened Nghttp2
  import P = ClientPump

  class Session {
    const wb: array<Byte>
    var wblen: nat
    var dataPending: Option<Bytes>
    var writing: bool
    var insideCallback: bool
    var stopped: bool
    var reading: bool
    var lib: Lib
    ghost var produced: Bytes
    ghost var completed: Bytes
    ghost var outstanding: nat
    ghost var cause: P.Cause
    ghost var errors: nat
    ghost var connects: nat

    ghost predicate Valid()
      reads this
    {
      wb.Length == BUFFER_SIZE && wblen <= BUFFER_SIZE
    }

    /** The session as a state of the step system. */
    ghost function Abs(): P.State
      requires Valid()
      reads this, wb
    {
      P.State(wb[..wblen], dataPending, writing, insideCallback, stopped, reading, lib, produced, completed, outstanding,
              cause, false, errors, connects)
    }

    /** The session as connected() finds it. */
    constructor (l: Lib)
      ensures Valid() && fresh(wb)
      ensures Abs() == P.Idle(l)
    {
      wb := new Byte[BUFFER_SIZE];
      wblen := 0;
      dataPending := None;
      writing, insideCallback, stopped, reading := false, false, false, false;
      lib := l;
      produced, completed, outstanding, cause, errors, connects := [], [], 0, P.Running, 0, 0;
    }

    method EnterCallback()
      requires Valid() && !insideCallback
      modifies this
      ensures Valid() && Abs() == P.EnterCallback(old(Abs()))
    {
      assert !insideCallback;
      insideCallback := true;
    }

    method LeaveCallback()
      requires Valid() && insideCallback
      modifies this
      ensures Valid() && Abs() == P.LeaveCallback(old(Abs()))
    {
      assert insideCallback;
      insideCallback := false;
    }

    method Stop(ghost why: P.Cause)
      requires Valid()
      requires why == P.Drained && !stopped ==> !P.Unsent(Abs())
      modifies this
      ensures Valid() && Abs() == P.Stop(old(Abs()), why)
    {
      if stopped {
        return;
      }
      stopped := true;
      cause := why;
    }

    method ShouldStop() returns (r: bool)
      requires Valid()
      ensures r <==> P.ShouldStop(Abs())
    {
      r := !writing && !lib.wantRead && !lib.wantWrite;
    }

    /** std::copy_n to wb_ + wblen_, and wblen_ moves on. */
    method Append(data: Bytes)
      requires Valid() && wblen + |data| <= BUFFER_SIZE
      modifies this`wblen, wb
      ensures Valid() && wb[..wblen] == old(wb[..wblen]) + data
    {
      wblen := CopyInto(wb, wblen, data);
    }

    /** Either the pump cannot start, or the session is settled so that it may. */
    ghost predicate MayCall()
      requires Valid()
      reads this, wb
    {
      P.Blocked(Abs()) || P.Quiet(Abs())
    }

    method RunCalls(calls: seq<Call>)
      requires Valid() && MayCall()
      modifies this, wb
      ensures Valid() && Abs() == P.RunCalls(old(Abs()), calls)
      ensures MayCall()
      decreases calls, 0
    {
      if calls != [] {
        ApiCall(calls[0]);
        RunCalls(calls[1..]);
      }
    }

    method ApiCall(c: Call)
      requires Valid() && MayCall()
      modifies this, wb
      ensures Valid() && Abs() == P.ApiCall(old(Abs()), c)
      ensures MayCall()
      decreases c, 3
    {
      ghost var s := Abs();
      if P.Blocked(s) { P.BlockedCall(s, c); } else { P.ApiCallKeeps(s, c); }
      if stopped && c.api != WriteTrailer {
        return;
      }
      if !c.accepted && (c.api == Submit || c.api == WriteTrailer) {
        return;
      }
      lib := c.lib;
      assert Abs() == s.(lib := c.lib);
      SignalWrite(c.script);
    }

    method SignalWrite(script: seq<Answer>)
      requires Valid() && (P.Blocked(Abs()) || P.Settled(Abs()))
      modifies this, wb
      ensures Valid() && Abs() == P.SignalWrite(old(Abs()), script)
      decreases script, 2
    {
      if !insideCallback {
        DoWrite(script);
      }
    }

    method CallErrorCb(calls: seq<Call>)
      requires Valid() && MayCall()
      modifies this, wb
      ensures Valid() && Abs() == P.CallErrorCb(old(Abs()), calls)
      ensures MayCall()
      decreases calls, 1
    {
      if stopped {
        return;
      }
      errors := errors + 1;
      RunCalls(calls);
    }

    /** do_write */
    method DoWrite(script: seq<Answer>)
      requires Valid() && !insideCallback && (P.Blocked(Abs()) || P.Settled(Abs()))
      modifies this, wb
      ensures Valid() && Abs() == P.DoWrite(old(Abs()), script)
      decreases script, 1
    {
      if stopped {
        return;
      }
      if writing {
        return;
      }
      ghost var s := Abs();
      P.CopyPendingKeeps(s);
      if dataPending.Some? {
        Append(dataPending.value);
        dataPending := None;
      }
      assert Abs() == P.CopyPending(s);
      EnterCallback();
      ghost var s1 := Abs();
      P.PumpKeeps(s1, script);
      Pump(script);
      LeaveCallback();
      FinishWrite();
    }

    /** The end of do_write. */
    method FinishWrite()
      requires Valid() && (Abs().wb == [] && !stopped ==> dataPending.None? && !lib.sendable)
      modifies this
      ensures Valid() && Abs() == P.AfterPump(old(Abs()))
    {
      if stopped {
        return;
      }
      if wblen == 0 {
        var stop := ShouldStop();
        if stop {
          Stop(P.Drained);
        }
        return;
      }
      writing := true;
      outstanding := outstanding + 1;
    }

    /** nghttp2_session_mem_send as the oracle answers it: callbacks first, then the result. */
    method MemSend(a: Answer)
      requires Valid() && insideCallback && dataPending.None?
      modifies this, wb
      ensures Valid() && Abs() == P.MemSend(old(Abs()), a)
      decreases a, 1
    {
      assert dataPending.None?;
      RunCalls(a.calls);
      lib := LibAfter(a);
      produced := produced + if a.Data? then a.data else [];
    }

    /** The for loop of do_write. */
    method Pump(script: seq<Answer>)
      requires Valid() && P.Pumping(Abs())
      modifies this, wb
      ensures Valid() && Abs() == P.Pump(old(Abs()), script)
      decreases script, 0
    {
      ghost var result := P.Pump(Abs(), script);
      var i := 0;
      while true
        invariant 0 <= i <= |script| && Valid() && P.Pumping(Abs())
        invariant P.Pump(Abs(), script[i..]) == result
        decreases |script| - i
      {
        if i == |script| {
          lib := Asleep(lib);
          return;
        }
        var a := script[i];
        assert script[i..][0] == a && script[i..][1..] == script[i + 1..];
        ghost var s := Abs();
        P.MemSendKeeps(s, a);
        MemSend(a);
        if a.Failure? {
          P.BlockedCalls(P.Reported(Abs()), a.onError);
          CallErrorCb(a.onError);
          Stop(P.Failed);
          return;
        }
        if a.Nothing? {
          return;
        }
        if wblen + |a.data| > BUFFER_SIZE {
          dataPending := Some(a.data);
          return;
        }
        P.ConservedAppend(s.completed, s.wb, a.data);
        Append(a.data);
        i := i + 1;
      }
    }

    method DoRead()
      requires Valid()
      modifies this
      ensures Valid() && Abs() == P.DoRead(old(Abs()))
    {
      if stopped {
        return;
      }
      reading := true;
    }

    /** connected(), after setup_session has queued SETTINGS: l is the nghttp2 session it made. */
    method Connected(l: Lib, script: seq<Answer>, onConnect: seq<Call>)
      requires Valid() && Abs() == P.Idle(lib)
      modifies this, wb
      ensures Valid() && P.Quiet(Abs()) && Abs() == P.Connected(l, script, onConnect)
      ensures !stopped ==> reading
      ensures connects == 1
    {
      P.ConnectedIsQuiet(l, script, onConnect);
      Begin(l, script);
      RunCalls(onConnect);
    }

    /** connected() up to the user's callback. */
    method Begin(l: Lib, script: seq<Answer>)
      requires Valid() && Abs() == P.Idle(lib)
      modifies this, wb
      ensures Valid() && P.Quiet(Abs())
      ensures var s := P.DoRead(P.DoWrite(P.Idle(l), script)); Abs() == s.(connects := s.connects + 1)
    {
      lib := l;
      assert Abs() == P.Idle(l);
      P.DoWriteKeeps(P.Idle(l), script);
      DoWrite(script);
      DoRead();
      connects := connects + 1;
    }

    /** do_read's completion handler */
    method OnRead(ok: bool, calls: seq<Call>, after: Lib, whole: bool, onError: seq<Call>, script: seq<Answer>)
      requires Valid() && P.Quiet(Abs()) && reading
      modifies this, wb
      ensures Valid() && P.Quiet(Abs())
      ensures Abs() == P.Step(old(Abs()), P.ReadDone(ok, calls, after, whole, onError, script))
    {
      P.StepKeeps(Abs(), P.ReadDone(ok, calls, after, whole, onError, script));
      reading := false;
      if !ok {
        var stop := ShouldStop();
        if !stop {
          CallErrorCb(onError);
        }
        Stop(P.Failed);
        return;
      }
      ReadSome(calls, after, whole, onError, script);
    }

    /** The handler when some bytes have been read. */
    method ReadSome(calls: seq<Call>, after: Lib, whole: bool, onError: seq<Call>, script: seq<Answer>)
      requires Valid() && P.Quiet(Abs())
      modifies this, wb
      ensures Valid() && Abs() == P.OnRead(old(Abs()), true, calls, after, whole, onError, script)
    {
      ghost var s := Abs();
      P.ReadCallbacks(s, calls, after);
      EnterCallback();
      RunCalls(calls);
      lib := after;
      assert Abs() == s.(insideCallback := true, lib := after);
      if !whole {
        P.BlockedCalls(P.Reported(Abs()), onError);
        CallErrorCb(onError);
        Stop(P.Failed);
        LeaveCallback();
        return;
      }
      LeaveCallback();
      AfterRead(script);
    }

    /** The end of do_read's handler. */
    method AfterRead(script: seq<Answer>)
      requires Valid() && P.Settled(Abs())
      modifies this, wb
      ensures Valid()
      ensures var s2 := P.DoWrite(old(Abs()), script);
              Abs() == if P.ShouldStop(s2) then P.Stop(s2, P.Drained) else P.DoRead(s2)
    {
      P.DoWriteKeeps(Abs(), script);
      DoWrite(script);
      var stop := ShouldStop();
      if stop {
        Stop(P.Drained);
        return;
      }
      DoRead();
    }

    /** do_write's completion handler */
    method OnWrite(ok: bool, onError: seq<Call>, script: seq<Answer>)
      requires Valid() && P.Quiet(Abs()) && outstanding == 1
      modifies this, wb
      ensures Valid() && P.Quiet(Abs())
      ensures Abs() == P.Step(old(Abs()), P.WriteDone(ok, onError, script))
    {
      ghost var s := Abs();
      P.OnWriteKeeps(s, ok, onError, script);
      outstanding := 0;
      if !ok {
        CallErrorCb(onError);
        Stop(P.Failed);
        return;
      }
      WroteAll(script);
    }

    /** The handler when the buffer has been written. */
    method WroteAll(script: seq<Answer>)
      requires Valid() && outstanding == 0 && P.Quiet(Abs().(outstanding := 1))
      modifies this, wb
      ensures Valid() && Abs() == P.OnWrite(old(Abs()), true, [], script)
    {
      ghost var s := Abs();
      completed := completed + wb[..wblen];
      wblen := 0;
      writing := false;
      assert s.completed + s.wb + [] + P.Parked(s) == s.completed + s.wb + P.Parked(s);
      assert Abs() == s.(completed := s.completed + s.wb, wb := [], writing := false);
      DoWrite(script);
    }

    /** handle_ping; idle says whether no stream is open. */
    method OnPing(aborted: bool, idle: bool, after: Lib, script: seq<Answer>)
      requires Valid() && P.Quiet(Abs())
      modifies this, wb
      ensures Valid() && P.Quiet(Abs()) && Abs() == P.Step(old(Abs()), P.PingTimer(aborted, idle, after, script))
    {
      P.StepKeeps(Abs(), P.PingTimer(aborted, idle, after, script));
      if stopped || aborted || !idle {
        return;
      }
      lib := after;
      SignalWrite(script);
    }

    /** handle_deadline */
    method OnDeadline(expired: bool, onError: seq<Call>)
      requires Valid() && P.Quiet(Abs())
      modifies this, wb
      ensures Valid() && P.Quiet(Abs()) && Abs() == P.Step(old(Abs()), P.DeadlineTimer(expired, onError))
    {
      P.StepKeeps(Abs(), P.DeadlineTimer(expired, onError));
      if stopped {
        return;
      }
      if expired {
        CallErrorCb(onError);
        Stop(P.Failed);
      }
    }
  }
}

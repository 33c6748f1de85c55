/** The response object: response_impl's fields updated in place, each method proved to do what Response says. */
module ResponseImpl {
  import opened Basics
  import opened Response

  class Impl {
    const method_: string
    const pushed: bool
    var promiseSent: bool
    var phase: Phase
    var status: nat
    var generator: Generator
    // what nghttp2 and an observer know of the stream
    ghost var submitted: nat
    ghost var hasBody: bool
    ghost var deferred: bool
    ghost var stalled: bool
    ghost var eof: bool
    ghost var delivered: Bytes
    ghost var ended: Option<Bytes>
    ghost var handed: Option<nat>
    ghost var taken: bool

    ghost function Abs(): State
      reads this
    {
      State(method_, pushed, promiseSent, phase, status, generator, submitted, hasBody, deferred, stalled, eof,
            delivered, ended, handed, taken)
    }

    constructor (m: string, isPushed: bool)
      ensures Abs() == New(m, isPushed)
    {
      method_, pushed, promiseSent := m, isPushed, false;
      phase, status, generator := Initial, 200, DeferredGenerator;
      submitted, hasBody, deferred, stalled, eof, delivered, ended := 0, false, false, false, false, [], None;
      handed, taken := None, false;
    }

    /** start_response, with http2_handler::start_response; a refused response also gets a stream error. */
    method StartResponse(ok: bool)
      requires submitted == 0
      modifies this
      ensures Abs() == Response.StartResponse(old(Abs()), ok)
      ensures submitted == 1 && handed == Some(status) && hasBody == (ok && BodyAllowed(method_, status))
    {
      var body := ExpectResponseBody(method_, status);
      if !body {
        phase := BodyStarted;
      }
      submitted := submitted + 1;
      hasBody := ok && body;
      handed, taken := Some(status), ok;
    }

    method WriteHead(statusCode: nat, ok: bool)
      requires Inv(Abs())
      modifies this
      ensures Inv(Abs()) && Abs() == Response.WriteHead(old(Abs()), statusCode, ok)
    {
      StepKeeps(Abs(), HeadWritten(statusCode, ok));
      StartHead(statusCode, ok);
    }

    /** write_head, also as end calls it when the generator is already in place */
    method StartHead(statusCode: nat, ok: bool)
      requires phase == Initial ==> submitted == 0
      modifies this
      ensures Abs() == Response.WriteHead(old(Abs()), statusCode, ok)
    {
      if phase != Initial {
        return;
      }
      status := statusCode;
      phase := HeaderDone;
      if pushed && !promiseSent {
        return;
      }
      StartResponse(ok);
    }

    method End(g: Generator, ok: bool)
      requires Inv(Abs()) && (g.UserGenerator? || g.NoGenerator?)
      modifies this
      ensures Inv(Abs()) && Abs() == Response.End(old(Abs()), g, ok)
    {
      StepKeeps(Abs(), EndedBy(g, ok));
      EndWith(g, ok);
    }

    /** end(generator_cb), whatever the generator; the invariant is restored by the callers. */
    method EndWith(g: Generator, ok: bool)
      requires Inv(Abs())
      modifies this
      ensures Abs() == Response.End(old(Abs()), g, ok)
    {
      if phase == BodyStarted {
        return;
      }
      generator := g;
      if phase == Initial {
        StartHead(status, ok);
      } else {
        deferred, stalled := false, false;  // handler->resume(*strm_)
      }
      phase := BodyStarted;
    }

    method EndString(data: Bytes, ok: bool)
      requires Inv(Abs())
      modifies this
      ensures Inv(Abs()) && Abs() == Response.EndString(old(Abs()), data, ok)
      ensures ended == if old(phase) == BodyStarted then old(ended) else Some(data)
    {
      StepKeeps(Abs(), EndedWith(data, ok));
      ghost var first := phase != BodyStarted;
      EndWith(StringGenerator(data, |data|), ok);
      if first {
        ended := Some(data);
      }
    }

    method PushPromiseSent(ok: bool)
      requires Inv(Abs()) && pushed
      modifies this
      ensures Inv(Abs()) && Abs() == Response.PushPromiseSent(old(Abs()), ok)
    {
      StepKeeps(Abs(), PromiseSent(ok));
      if promiseSent {
        return;
      }
      promiseSent := true;
      if phase == Initial {
        return;
      }
      StartResponse(ok);
    }

    /** call_read fills the caller's buffer. n counts the bytes put there; isDeferred stands for NGHTTP2_ERR_DEFERRED. */
    method CallRead(buf: array<Byte>, user: ReadResult) returns (n: nat, isEof: bool, isDeferred: bool)
      requires user.Produced? ==> |user.data| <= buf.Length
      modifies this`generator, buf
      ensures n <= buf.Length
      ensures var (r, g) := Response.CallRead(old(generator), buf.Length, user);
              generator == g && r == if isDeferred then Deferred else Produced(buf[..n], isEof)
    {
      n, isEof, isDeferred := 0, false, false;
      match generator {
        case DeferredGenerator => isDeferred := true;
        case NoGenerator => isEof := true;
        case UserGenerator(_) =>
          if user.Deferred? {
            isDeferred := true;
          } else {
            n := CopyInto(buf, 0, user.data);
            assert buf[..n] == user.data;
            isEof := user.eof;
          }
        case StringGenerator(data, left) =>
          var most := Min(buf.Length, left);
          var start := |data| - Min(left, |data|);
          var chunk := data[start..start + Min(most, |data| - start)];
          assert chunk == FirstOf(Remaining(data, left), most);
          n := CopyInto(buf, 0, chunk);
          assert buf[..n] == chunk;
          generator := StringGenerator(data, left - most);
          isEof := left - most == 0;
      }
    }

    /** The read callback of start_response's data provider, with what nghttp2 does with the answer. */
    method ReadBody(buf: array<Byte>, user: ReadResult) returns (n: nat)
      requires Inv(Abs()) && Enabled(Abs(), BodyRead(buf.Length, user))
      requires user.Produced? ==> |user.data| <= buf.Length
      modifies this, buf
      ensures Abs() == Read(old(Abs()), buf.Length, user) && Inv(Abs())
      ensures n <= buf.Length && (!deferred ==> delivered == old(delivered) + buf[..n])
    {
      ReadKeeps(Abs(), buf.Length, user);
      var isEof, isDeferred;
      n, isEof, isDeferred := CallRead(buf, user);
      if isDeferred {
        deferred, stalled := true, old(generator).DeferredGenerator?;
      } else {
        delivered := delivered + buf[..n];
        eof := isEof;
      }
    }
  }
}

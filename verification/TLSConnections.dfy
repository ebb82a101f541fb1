/**
  The connection object: its callbacks, statement by statement, proved to do what
  the functions of Connection say.
 */
module TLSConnections {
  import opened Wire
  import opened ByteArrays
  import opened UVBio
  import opened Connection
  import opened Effects

  /** What libuv tells OnRead: nread of -1 is the end of the stream or an error. */
  function EventOf(nread: int, base: Bytes, fault: Option<int>, hs: Handshake, sslReads: seq<SslRead>): ReadEvent
    requires -1 <= nread <= |base|
  {
    if nread == -1 then
      match fault { case None => Eof case Some(e) => SocketError(e) }
    else if nread == 0 then Nothing
    else Incoming(base[..nread], hs, sslReads)
  }

  /** SSL_read returns between 1 and room bytes when it returns bytes. */
  ghost predicate Fit(sslReads: seq<SslRead>, room: int) {
    forall i :: 0 <= i < |sslReads| && sslReads[i].ReadGot? ==> 0 < |sslReads[i].data| <= room
  }

  /** The DER encodings of a chain. */
  function Encodings(certs: seq<Encoding>): seq<Bytes> {
    if certs == [] then [] else (if certs[0].Der? then [certs[0].der] else []) + Encodings(certs[1..])
  }

  lemma EncodedNext(done: seq<Bytes>, certs: seq<Encoding>)
    requires certs != [] && certs[0].Der?
    ensures done + Encodings(certs) == (done + [certs[0].der]) + Encodings(certs[1..])
  {
    assert done + ([certs[0].der] + Encodings(certs[1..])) == (done + [certs[0].der]) + Encodings(certs[1..]);
  }

  /** entered, log, sslWrites, received and shutdowns only record. */
  class TLSConnectionPrivate {
    const handlers: Handlers
    var state: Phase
    var err: int
    var threadId: nat
    var wq: seq<Bytes>
    var biostate: UVBioState?
    ghost var entered: seq<Phase>
    ghost var log: seq<Call>
    ghost var sslWrites: seq<Bytes>
    ghost var received: seq<Bytes>
    ghost var shutdowns: nat

    ghost function Model(): Conn
      reads this
    {
      Conn(handlers, state, err, shutdowns, entered, log, sslWrites, received)
    }

    ghost predicate Valid()
      reads this
    {
      state.Starved? || state.Established? ==> biostate != null
    }

    /** The fields that handling the connection's own phase leaves alone. */
    twostate predicate QueueKept()
      reads this
    {
      wq == old(wq) && threadId == old(threadId) && biostate == old(biostate)
    }

    constructor (h: Handlers)
      ensures Valid() && Model() == NewConn(h) && threadId == 0 && wq == [] && biostate == null
    {
      handlers, state, err, threadId, wq, biostate := h, PreConnect, 0, 0, [], null;
      entered, log, sslWrites, received, shutdowns := [PreConnect], [], [], [], 0;
    }

    // ---------------------------------------------------------------- shutting down

    method SetState(p: Phase)
      modifies this
      ensures Model() == Enter(old(Model()), p) && QueueKept()
    {
      state := p;
      entered := entered + [p];
    }

    method Shutdown(p: Phase)
      modifies this
      ensures Model() == Connection.Shutdown(old(Model()), p) && QueueKept()
    {
      SetState(p);
      shutdowns := shutdowns + 1;
    }

    method ShutdownError(e: int)
      modifies this
      ensures Model() == Connection.ShutdownError(old(Model()), e) && QueueKept()
    {
      err := e;
      Shutdown(DisconnectedError);
    }

    method ShutdownRemote()
      modifies this
      ensures Model() == Connection.ShutdownRemote(old(Model())) && QueueKept()
    {
      Shutdown(DisconnectedRemote);
    }

    /** On the loop thread at once; from another thread by waking the loop; without a loop thread not at all. */
    method Disconnect(us: nat) returns (woken: bool)
      requires us != 0
      modifies this
      ensures QueueKept() && (woken <==> us != threadId && threadId != 0)
      ensures Model() == if us == threadId then Connection.Shutdown(old(Model()), DisconnectedLocal) else old(Model())
    {
      if us == threadId {
        Shutdown(DisconnectedLocal);
        return false;
      }
      return threadId > 0;
    }

    /** On the loop thread straight to SSL_write, which answers result; from another thread into the queue. */
    method Write(us: nat, buf: Bytes, result: WriteResult) returns (woken: bool)
      requires us != 0
      modifies this
      ensures threadId == old(threadId) && biostate == old(biostate)
      ensures woken <==> us != threadId && threadId != 0
      ensures Model() == if us == threadId then DoAct(old(Model()), Writes(buf, result)) else old(Model())
      ensures wq == if woken then old(wq) + [buf] else old(wq)
      ensures sslWrites == if us == threadId then old(sslWrites) + [buf] else old(sslWrites)
    {
      if us == threadId {
        sslWrites := sslWrites + [buf];
        match result {
          case Written =>
          case WriteClosed => ShutdownRemote();
          case WriteFailed(e) => ShutdownError(e);
        }
        return false;
      } else if threadId > 0 {
        wq := wq + [buf];
        return true;
      }
      return false;
    }

    /** What a handler does, called on thread us. Once the loop thread's id is gone it does nothing. */
    method RunHandler(us: nat, acts: seq<Act>)
      requires us != 0 && (threadId == us || threadId == 0)
      modifies this
      ensures QueueKept()
      ensures Model() == if threadId == us then DoActs(old(Model()), acts) else old(Model())
    {
      var i := 0;
      while i < |acts|
        invariant 0 <= i <= |acts| && QueueKept()
        invariant threadId == us ==> DoActs(Model(), acts[i..]) == DoActs(old(Model()), acts)
        invariant threadId != us ==> Model() == old(Model())
      {
        var woken;
        if acts[i].Writes? {
          woken := Write(us, acts[i].buf, acts[i].result);
        } else {
          woken := Disconnect(us);
        }
        assert acts[i..][1..] == acts[i + 1..];
        i := i + 1;
      }
    }

    // ---------------------------------------------------------------- the handshake

    method TransitionToConnectionEstablishedState(acts: seq<Act>)
      requires threadId != 0
      modifies this
      ensures Model() == Establish(old(Model()), acts) && QueueKept()
    {
      SetState(Established);
      if handlers.established {
        log := log + [EstablishedCall];
        RunHandler(threadId, acts);
      }
    }

    /**
      Encodes the chain one certificate at a time and has it judged, by the verify
      handler if there is one, otherwise by the system verifier. verified is the
      chain that is judged.
     */
    method SSLVerifyCallback(hs: Handshake) returns (accepted: bool, verified: seq<Bytes>)
      requires threadId != 0
      modifies this
      ensures Model() == Verify(old(Model()), hs) && QueueKept()
      ensures accepted <==> Fault(hs.certs).None? && hs.verdict
      ensures Fault(hs.certs).None? ==> |verified| == |hs.certs| && verified == Encodings(hs.certs)
    {
      var fault;
      fault, verified := EncodeChain(hs.certs);
      if fault.Some? {
        ShutdownError(fault.value);
        return false, verified;
      }
      if handlers.verify {
        RunHandler(threadId, hs.verifyActs);
      }
      return hs.verdict, verified;
    }

    /** The loop over the chain, up to the first certificate that cannot be encoded. */
    static method EncodeChain(certs: seq<Encoding>) returns (fault: Option<int>, encoded: seq<Bytes>)
      ensures fault == Fault(certs)
      ensures fault.None? ==> |encoded| == |certs| && encoded == Encodings(certs)
    {
      encoded := [];
      for i := 0 to |certs|
        invariant |encoded| == i && Fault(certs[i..]) == Fault(certs)
        invariant encoded + Encodings(certs[i..]) == Encodings(certs)
      {
        var rest := certs[i..];
        assert rest[0] == certs[i] && rest[1..] == certs[i + 1..];
        if certs[i].NotEncoded? { return Some(certs[i].err), encoded; }
        EncodedNext(encoded, rest);
        encoded := encoded + [certs[i].der];
      }
      return None, encoded;
    }

    method HandleStarvedConnectState(hs: Handshake) returns (ok: bool)
      requires threadId != 0
      modifies this
      ensures Model() == HandleStarved(old(Model()), hs) && QueueKept()
      ensures ok <==> hs.result.Connected?
    {
      var _, _ := SSLVerifyCallback(hs);
      match hs.result {
        case ConnectWants => return false;
        case ConnectFailed(e) =>
          ShutdownError(e);
          return false;
        case ConnectClosed =>
          ShutdownRemote();
          return false;
        case Connected =>
          TransitionToConnectionEstablishedState(hs.acts);
          return true;
      }
    }

    // ---------------------------------------------------------------- callbacks of the loop

    method OnConnect(ev: ConnectEvent)
      requires threadId != 0 && Valid()
      modifies this
      ensures Model() == Connection.OnConnect(old(Model()), ev)
      ensures wq == old(wq) && threadId == old(threadId)
      ensures ev.TcpConnected? ==> biostate != null && fresh(biostate) && biostate.Valid() && biostate.Chunks() == []
      ensures !ev.TcpConnected? ==> biostate == old(biostate)
    {
      if ev.ConnectError? {
        ShutdownError(ev.err);
      } else if ev.ReadStartError? {
        ShutdownError(ev.err);
      } else {
        biostate := new UVBioState();
        SetState(Starved);
        var _ := HandleStarvedConnectState(ev.hs);
      }
    }

    method OnRead(nread: int, base: array<Byte>, fault: Option<int>, hs: Handshake, sslReads: seq<SslRead>)
      requires threadId != 0 && Valid() && (biostate != null ==> biostate.Valid())
      requires -1 <= nread <= base.Length && Fit(sslReads, nread)
      modifies this, biostate
      ensures Model() == Connection.OnRead(old(Model()), EventOf(nread, old(base[..]), fault, hs, sslReads))
      ensures Valid() && QueueKept() && (biostate != null ==> biostate.Valid())
      ensures biostate != null ==>
                biostate.Chunks() == old(biostate.Chunks())
                  + if nread > 0 && (old(state).Starved? || old(state).Established?) then [old(base[..nread])] else []
    {
      if !state.Starved? && !state.Established? { return; }
      if nread == -1 {
        if fault.None? { ShutdownRemote(); } else { ShutdownError(fault.value); }
        return;
      } else if nread == 0 {
        ShutdownRemote();
        return;
      }
      Feed(nread, base);
      if state.Starved? {
        var ok := HandleStarvedConnectState(hs);
        if !ok { return; }
      }
      if state.Established? {
        ReadAll(nread, sslReads);
      }
    }

    /** Puts what arrived into the BIO. */
    method Feed(nread: nat, base: array<Byte>)
      requires biostate != null && biostate.Valid() && 0 < nread <= base.Length
      modifies this`received, biostate
      ensures Model() == old(Model()).(received := old(received) + [base[..nread]])
      ensures biostate.Valid() && biostate.Chunks() == old(biostate.Chunks()) + [base[..nread]]
    {
      var b := new ByteArray.From(base, nread, base.Length);
      biostate.PutNewBuffer(b);
      received := received + [base[..nread]];
    }

    /** The SSL_read loop, into one buffer that is truncated to what came. */
    method ReadAll(nread: nat, sslReads: seq<SslRead>)
      requires threadId != 0 && Fit(sslReads, nread)
      modifies this
      ensures Model() == ReadLoop(old(Model()), sslReads) && QueueKept()
      ensures log == old(log) + ReadsEffect(handlers, sslReads).calls
    {
      ReadLoopDid(Model(), sslReads);
      var processed := new ByteArray.OfLength(nread);
      var i := 0;
      while i < |sslReads|
        invariant 0 <= i <= |sslReads| && QueueKept()
        invariant fresh(processed) && processed.Valid() && processed.buf != null && fresh(processed.buf)
        invariant processed.cap == nread
        invariant ReadLoop(Model(), sslReads[i..]) == ReadLoop(old(Model()), sslReads)
      {
        assert sslReads[i..][0] == sslReads[i] && sslReads[i..][1..] == sslReads[i + 1..];
        if sslReads[i].ReadWants? {
          return;
        } else if sslReads[i].ReadFailed? {
          ShutdownError(sslReads[i].err);
          return;
        } else if sslReads[i].ReadClosed? {
          ShutdownRemote();
          return;
        }
        var data, acts := sslReads[i].data, sslReads[i].acts;
        Fill(processed, data);
        processed.Truncate(|data|);
        CallRead(processed, acts);
        i := i + 1;
      }
    }

    /** SSL_read's effect on the caller's buffer. */
    static method Fill(processed: ByteArray, data: Bytes)
      requires processed.Valid() && processed.buf != null && |data| <= processed.cap
      modifies processed.buf
      ensures processed.buf[..|data|] == data
    {
      forall k | 0 <= k < |data| {
        processed.buf[k] := data[k];
      }
    }

    method CallRead(processed: ByteArray, acts: seq<Act>)
      requires threadId != 0 && processed.Valid()
      modifies this
      ensures Model() == Invoke(old(Model()), handlers.read, ReadCall(old(processed.Contents())), acts) && QueueKept()
    {
      if handlers.read {
        log := log + [ReadCall(processed.Contents())];
        RunHandler(threadId, acts);
      }
    }

    /** An established connection writes out its whole queue; any other leaves it. */
    method OnDrainWriteQueue(rs: seq<WriteResult>)
      requires threadId != 0 && |rs| == |wq|
      modifies this
      ensures threadId == old(threadId) && biostate == old(biostate)
      ensures if old(state).Established? then
                Model() == DoActs(old(Model()), WritesOf(old(wq), rs)) && wq == []
              else Model() == old(Model()) && wq == old(wq)
      ensures sslWrites == if old(state).Established? then old(sslWrites) + old(wq) else old(sslWrites)
    {
      DrainWrites(wq, rs);
      ActsDid(Model(), WritesOf(wq, rs));
      if state.Established? {
        ghost var i := 0;
        while |wq| > 0
          invariant 0 <= i <= |rs| && wq == old(wq)[i..]
          invariant threadId == old(threadId) && biostate == old(biostate)
          invariant DoActs(Model(), WritesOf(wq, rs[i..])) == DoActs(old(Model()), WritesOf(old(wq), rs))
          decreases |wq|
        {
          assert rs[i..][0] == rs[i] && rs[i..][1..] == rs[i + 1..];
          var woken := Write(threadId, wq[0], rs[|rs| - |wq|]);
          wq := wq[1..];
          i := i + 1;
        }
      }
    }

    method OnDisconnectRequest()
      modifies this
      ensures Model() == Connection.Shutdown(old(Model()), DisconnectedLocal) && QueueKept()
    {
      Shutdown(DisconnectedLocal);
    }

    // ---------------------------------------------------------------- the thread

    method StartThread(us: nat)
      requires us != 0
      modifies this
      ensures threadId == us && Model() == old(Model()) && wq == old(wq) && biostate == old(biostate)
    {
      threadId := us;
    }

    /**
      What the thread does once uv_run has returned: the id goes first, so that
      whatever the end handler does to the connection has no effect.
     */
    method EndThread(us: nat, fault: Option<int>, acts: seq<Act>) returns (notReached: bool)
      requires us != 0 && threadId == us
      modifies this
      ensures threadId == 0 && wq == []
      ensures var c := if fault.Some? then Enter(old(Model()).(err := fault.value), DisconnectedError)
                       else old(Model());
              match EndCalls(c)
              case Some(d) => Model() == d && !notReached
              case None => Model() == c && notReached
    {
      if fault.Some? {
        SetState(DisconnectedError);
        err := fault.value;
      }
      threadId := 0;
      wq := [];
      notReached := false;
      match state {
        case DisconnectedLocal => CallEnd(us, handlers.disconnect, DisconnectCall(true), acts);
        case DisconnectedRemote => CallEnd(us, handlers.disconnect, DisconnectCall(false), acts);
        case DisconnectedError => CallEnd(us, handlers.error, ErrorCall(err), acts);
        case _ => notReached := true;
      }
    }

    method CallEnd(us: nat, isSet: bool, call: Call, acts: seq<Act>)
      requires us != 0 && threadId == 0
      modifies this
      ensures Model() == Invoke(old(Model()), isSet, call, []) && QueueKept()
    {
      if isSet {
        log := log + [call];
        RunHandler(us, acts);
      }
    }
  }
}

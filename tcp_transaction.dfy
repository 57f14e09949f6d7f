/**
 * `ModbusRTUTCPTransaction`: one request/response exchange over an RTU-over-TCP
 * master connection. `execute` checks that a request and a connection are set,
 * takes the transaction lock, connects when needed (and then fetches the
 * connection's transport again), stamps the request with a fresh transaction
 * id, writes it and reads the response, turns an exception response into the
 * slave's error, optionally closes the connection and runs the validity hook,
 * and always releases the lock once it was asked for.
 */
module TcpTransaction {
  import opened Outcomes
  import opened Messages
  import opened TransactionSupport

  /** What `execute` does, given whether request and connection are set,
      whether the connection is connected, the transport the transaction
      holds, the outcomes it meets, its two flags and the id the counter
      hands out next. */
  function TcpRun(ready: bool, connected: bool, io: Transport?, env: Env,
                  reconnecting: bool, checking: bool, next: int): Run
  {
    if !ready then Run(Fail(NotExecutable), [])
    else if env.interrupted then Run(Fail(IOFailure(LockInterrupted)), [Interrupt, Release])
    else if !connected && env.connect.None? then
      Run(Fail(IOFailure(ConnectingFailed)), [Acquire, Connect, Release])
    else
      var x := Middle(Used(connected, io, env), env.write, env.read, true, Epilogue(reconnecting, checking));
      Run(x.result, Head(connected, next) + x.steps + [Release])
  }

  /** The steps before the write: the lock, connecting and fetching the
      transport again when not connected, and the new transaction id. */
  function Head(connected: bool, next: int): seq<Step> {
    if connected then [Acquire, Stamp(next)] else [Acquire, Connect, Fetch, Stamp(next)]
  }

  /** The steps after a normal response: closing when reconnecting, then
      the validity hook when checking. */
  function Epilogue(reconnecting: bool, checking: bool): seq<Step> {
    (if reconnecting then [CloseLink] else []) + (if checking then [Validate] else [])
  }

  /** Whether `execute` gets past the connect step. */
  predicate Proceeds(ready: bool, connected: bool, env: Env) {
    ready && !env.interrupted && (connected || env.connect.Some?)
  }

  /** Whether `execute` connects, and so fetches the transport again. */
  predicate Reconnects(ready: bool, connected: bool, env: Env) {
    Proceeds(ready, connected, env) && !connected
  }

  /** Whether a response is read and stored. */
  predicate Delivers(ready: bool, connected: bool, io: Transport?, env: Env) {
    Proceeds(ready, connected, env) && Used(connected, io, env) != null
    && env.write.Pass? && env.read.Ok?
  }

  /** Whether `execute` ends normally. */
  predicate Succeeds(ready: bool, connected: bool, io: Transport?, env: Env) {
    Delivers(ready, connected, io, env) && !env.read.value.IsException()
  }

  /** A transaction without request or connection fails before it
      touches the lock; otherwise the lock is asked for first (taken, or
      the wait interrupted) and released exactly once, as the last step. */
  lemma LockDiscipline(ready: bool, connected: bool, io: Transport?, env: Env,
                       reconnecting: bool, checking: bool, next: int)
    ensures var run := TcpRun(ready, connected, io, env, reconnecting, checking, next);
      && (!ready ==> run == Run(Fail(NotExecutable), []))
      && (ready ==> ReleasedOnceAtEnd(run.steps))
      && (ready ==> run.steps[0] == (if env.interrupted then Interrupt else Acquire))
      && (ready && env.interrupted ==> run == Run(Fail(IOFailure(LockInterrupted)), [Interrupt, Release]))
  {
    if Proceeds(ready, connected, env) {
      var x := Middle(Used(connected, io, env), env.write, env.read, true, Epilogue(reconnecting, checking));
      MiddleSteps(Used(connected, io, env), env.write, env.read, true, Epilogue(reconnecting, checking));
      ReleasedLast(Head(connected, next), x.steps);
    }
  }

  /** A connection that is not connected is connected first; when that
      fails nothing is stamped or written. When it succeeds the transport
      is fetched again right after connecting. */
  lemma ConnectsWhenNeeded(ready: bool, connected: bool, io: Transport?, env: Env,
                           reconnecting: bool, checking: bool, next: int)
    ensures var run := TcpRun(ready, connected, io, env, reconnecting, checking, next);
      && (Connect in run.steps <==> ready && !env.interrupted && !connected)
      && (ready && !env.interrupted && !connected && env.connect.None? ==>
            run == Run(Fail(IOFailure(ConnectingFailed)), [Acquire, Connect, Release]))
      && (Fetch in run.steps <==> Reconnects(ready, connected, env))
      && (Reconnects(ready, connected, env) ==> run.steps[1] == Connect && run.steps[2] == Fetch)
  {
    if Proceeds(ready, connected, env) {
      var xs := Middle(Used(connected, io, env), env.write, env.read, true, Epilogue(reconnecting, checking)).steps;
      MiddleSteps(Used(connected, io, env), env.write, env.read, true, Epilogue(reconnecting, checking));
      HeadConnects(connected, next, xs);
    }
  }

  /** Around any exchange, the head alone connects and fetches, and only
      when not connected. */
  lemma HeadConnects(connected: bool, next: int, xs: seq<Step>)
    requires ExchangeShaped(xs)
    ensures var s := Head(connected, next) + xs + [Release];
      && (Connect in s <==> !connected)
      && (Fetch in s <==> !connected)
      && (!connected ==> s[1] == Connect && s[2] == Fetch)
  {
    Quiet(xs);
    var h := Head(connected, next);
    assert Connect in h <==> !connected;
    assert Fetch in h <==> !connected;
  }

  /** Exactly the executions that get past the connect step take one new
      transaction id, the counter's next value, and stamp it right before
      the request is written. */
  lemma StampedOnce(ready: bool, connected: bool, io: Transport?, env: Env,
                    reconnecting: bool, checking: bool, next: int)
    ensures var run := TcpRun(ready, connected, io, env, reconnecting, checking, next);
      && (Proceeds(ready, connected, env) <==> OccursOnce(run.steps, Stamp(next)))
      && (forall i :: 0 <= i < |run.steps| && run.steps[i].Stamp? ==> run.steps[i] == Stamp(next))
      && (forall i :: 0 <= i < |run.steps| && run.steps[i].Write? ==> 0 < i && run.steps[i - 1] == Stamp(next))
  {
    if Proceeds(ready, connected, env) {
      var x := Middle(Used(connected, io, env), env.write, env.read, true, Epilogue(reconnecting, checking));
      MiddleSteps(Used(connected, io, env), env.write, env.read, true, Epilogue(reconnecting, checking));
      HeadStamps(connected, next, x.steps);
    }
  }

  /** In the steps of an execution that got past connecting, the head's
      stamp is the only one, and the write comes right after it. */
  lemma HeadStamps(connected: bool, next: int, xs: seq<Step>)
    requires ExchangeShaped(xs)
    ensures var s := Head(connected, next) + xs + [Release];
      && OccursOnce(s, Stamp(next))
      && (forall i :: 0 <= i < |s| && s[i].Stamp? ==> s[i] == Stamp(next))
      && (forall i :: 0 <= i < |s| && s[i].Write? ==> 0 < i && s[i - 1] == Stamp(next))
  {
    var head := Head(connected, next);
    var s := head + xs + [Release];
    var k := |head| - 1;
    StampAtHeadEnd(connected, next, xs);
    WriteAfterHead(head, xs);
    assert s[k] == Stamp(next);
  }

  /** The only stamp is the last step of the head. */
  lemma StampAtHeadEnd(connected: bool, next: int, xs: seq<Step>)
    requires ExchangeShaped(xs)
    ensures var head := Head(connected, next); var s := head + xs + [Release];
      && s[|head| - 1] == Stamp(next)
      && forall i :: 0 <= i < |s| && s[i].Stamp? ==> i == |head| - 1
  {
    var head := Head(connected, next);
    var s := head + xs + [Release];
    assert forall i :: 0 <= i < |head| ==> s[i] == head[i];
    assert forall i :: |head| <= i < |head| + |xs| ==> s[i] == xs[i - |head|];
    assert s[|s| - 1] == Release;
  }

  /** The middle's write is the step right after the head. */
  lemma WriteAfterHead(head: seq<Step>, xs: seq<Step>)
    requires forall i :: 0 <= i < |head| ==> !head[i].Write? && !head[i].Read?
    requires ExchangeShaped(xs)
    ensures var s := head + xs + [Release];
      forall i :: 0 <= i < |s| && s[i].Write? ==> i == |head|
  {
    Framed(head, xs, [Release]);
  }

  /** The request is written once, to the transport the execution ends up
      with, and the response, when read, is read from that transport right
      after the write. Nothing is written when that transport is null. */
  lemma WritesThenReads(ready: bool, connected: bool, io: Transport?, env: Env,
                        reconnecting: bool, checking: bool, next: int)
    ensures var run := TcpRun(ready, connected, io, env, reconnecting, checking, next);
      && WritesBeforeReads(run.steps)
      && WritesOnce(run.steps)
      && (Wrote(run.steps) <==> Proceeds(ready, connected, env) && Used(connected, io, env) != null)
      && (forall i :: 0 <= i < |run.steps| && run.steps[i].Write? ==> run.steps[i].io == Used(connected, io, env))
  {
    if Proceeds(ready, connected, env) {
      var head := Head(connected, next);
      var x := Middle(Used(connected, io, env), env.write, env.read, true, Epilogue(reconnecting, checking));
      MiddleSteps(Used(connected, io, env), env.write, env.read, true, Epilogue(reconnecting, checking));
      Framed(head, x.steps, [Release]);
    }
  }

  /** How `execute` ends when its environment is one a transport can
      produce: normally exactly when a normal response is read; with the
      slave's error and its code exactly when an exception response is
      read; with "Executing transaction failed." for every
      `ModbusIOException` of the transport; and a missing transport is a
      null dereference. */
  lemma Outcome(ready: bool, connected: bool, io: Transport?, env: Env,
                reconnecting: bool, checking: bool, next: int)
    requires Plausible(env)
    ensures var run := TcpRun(ready, connected, io, env, reconnecting, checking, next);
      && (run.result.Pass? <==> Succeeds(ready, connected, io, env))
      && (Delivers(ready, connected, io, env) && env.read.value.IsException() <==>
            run.result.Fail? && run.result.error.SlaveError?)
      && (Delivers(ready, connected, io, env) && env.read.value.IsException() ==>
            run.result == Fail(SlaveError(env.read.value.exceptionCode)))
      && (Proceeds(ready, connected, env) && Used(connected, io, env) == null ==>
            run.result == Fail(Escaped(NullPointer)))
      && (Proceeds(ready, connected, env) && Used(connected, io, env) != null &&
          ((env.write.Fail? && env.write.error.IOFailure?) ||
           (env.write.Pass? && env.read.Err? && env.read.error.IOFailure?)) ==>
            run.result == Fail(IOFailure(ExecutingFailed)))
  {
    if Proceeds(ready, connected, env) {
      MiddleResult(Used(connected, io, env), env.write, env.read, true, Epilogue(reconnecting, checking));
    }
  }

  /** An execution that ends normally takes exactly these steps: the lock,
      connecting if needed, the new id, the write, the read, closing when
      reconnecting, the validity hook when checking, and the release. */
  lemma NormalRun(ready: bool, connected: bool, io: Transport?, env: Env,
                  reconnecting: bool, checking: bool, next: int)
    requires Succeeds(ready, connected, io, env)
    ensures var used := Used(connected, io, env);
      && used != null
      && TcpRun(ready, connected, io, env, reconnecting, checking, next) ==
         Run(Pass, Head(connected, next) + [Write(used), Read(used)] + Epilogue(reconnecting, checking) + [Release])
  {
    var used := Used(connected, io, env);
    var tail := Epilogue(reconnecting, checking);
    var x := Middle(used, env.write, env.read, true, tail);
    assert x.steps == [Write(used), Read(used)] + tail;
    assert Head(connected, next) + x.steps + [Release] ==
           Head(connected, next) + [Write(used), Read(used)] + tail + [Release];
  }

  /** The connection is closed after the exchange exactly when
      reconnecting is set and the execution ends normally, and the validity
      hook runs exactly when checking is set and it ends normally. */
  lemma Epilogues(ready: bool, connected: bool, io: Transport?, env: Env,
                  reconnecting: bool, checking: bool, next: int)
    ensures var run := TcpRun(ready, connected, io, env, reconnecting, checking, next);
      && (CloseLink in run.steps <==> reconnecting && Succeeds(ready, connected, io, env))
      && (Validate in run.steps <==> checking && Succeeds(ready, connected, io, env))
  {
    var tail := Epilogue(reconnecting, checking);
    if Succeeds(ready, connected, io, env) {
      NormalRun(ready, connected, io, env, reconnecting, checking, next);
      var used := Used(connected, io, env);
      assert (CloseLink in tail <==> reconnecting) && (Validate in tail <==> checking);
      assert CloseLink !in Head(connected, next) + [Write(used), Read(used)];
      assert Validate !in Head(connected, next) + [Write(used), Read(used)];
    } else if Proceeds(ready, connected, env) {
      var x := Middle(Used(connected, io, env), env.write, env.read, true, tail);
      MiddleSteps(Used(connected, io, env), env.write, env.read, true, tail);
      assert CloseLink !in x.steps && Validate !in x.steps;
      assert CloseLink !in Head(connected, next) && Validate !in Head(connected, next);
    }
  }

  class Transaction {
    /** The class-wide `c_TransactionID` counter, shared by all transactions. */
    const counter: AtomicCounter
    /** `m_TransactionLock`. */
    const lock: Mutex
    var connection: Link?
    var io: Transport?
    var request: Request?
    var response: Option<Response>
    var validityCheck: bool
    var reconnecting: bool
    /** The steps of the latest `execute`. */
    ghost var lastSteps: seq<Step>

    /** `ModbusRTUTCPTransaction()`: nothing set; validity checking on and
        reconnecting off by default. */
    constructor Empty(counter: AtomicCounter)
      ensures this.counter == counter && fresh(lock) && !lock.locked
      ensures connection == null && io == null && request == null && response == None
      ensures validityCheck && !reconnecting
    {
      this.counter := counter;
      lock := new Mutex();
      connection, io, request, response := null, null, null, None;
      validityCheck, reconnecting := true, false;
      lastSteps := [];
    }

    /** `ModbusRTUTCPTransaction(request)`. */
    constructor WithRequest(counter: AtomicCounter, request: Request?)
      ensures this.counter == counter && fresh(lock) && !lock.locked
      ensures connection == null && io == null && this.request == request && response == None
      ensures validityCheck && !reconnecting
    {
      this.counter := counter;
      lock := new Mutex();
      connection, io, this.request, response := null, null, request, None;
      validityCheck, reconnecting := true, false;
      lastSteps := [];
    }

    /** `ModbusRTUTCPTransaction(con)`: the transport is taken from the
        connection at once, and is null if it has none yet. */
    constructor WithConnection(counter: AtomicCounter, con: Link)
      ensures this.counter == counter && fresh(lock) && !lock.locked
      ensures connection == con && io == con.transport && request == null && response == None
      ensures validityCheck && !reconnecting
    {
      this.counter := counter;
      lock := new Mutex();
      connection, io, request, response := con, con.transport, null, None;
      validityCheck, reconnecting := true, false;
      lastSteps := [];
    }

    /** `setConnection(con)`: the connection and the transport it has now. */
    method SetConnection(con: Link)
      modifies this
      ensures connection == con && io == con.transport
      ensures request == old(request) && response == old(response)
      ensures validityCheck == old(validityCheck) && reconnecting == old(reconnecting)
    {
      connection := con;
      io := con.transport;
    }

    method SetRequest(req: Request?)
      modifies this
      ensures request == req && connection == old(connection) && io == old(io)
      ensures response == old(response)
      ensures validityCheck == old(validityCheck) && reconnecting == old(reconnecting)
    {
      request := req;
    }

    function GetRequest(): (r: Request?)
      reads this
      ensures r == request
    {
      request
    }

    /** `getResponse`: the response last read, `None` before any. */
    function GetResponse(): (r: Option<Response>)
      reads this
      ensures r == response
    {
      response
    }

    /** `getTransactionID`: the counter's current value. */
    function TransactionID(): (id: int)
      reads this, counter
      ensures id == counter.value
    {
      counter.value
    }

    method SetCheckingValidity(b: bool)
      modifies this
      ensures validityCheck == b && reconnecting == old(reconnecting)
      ensures connection == old(connection) && io == old(io) && request == old(request)
      ensures response == old(response)
    {
      validityCheck := b;
    }

    function IsCheckingValidity(): (b: bool)
      reads this
      ensures b == validityCheck
    {
      validityCheck
    }

    /** `setReconnecting`: whether `execute` closes the connection after
        every successful exchange. */
    method SetReconnecting(b: bool)
      modifies this
      ensures reconnecting == b && validityCheck == old(validityCheck)
      ensures connection == old(connection) && io == old(io) && request == old(request)
      ensures response == old(response)
    {
      reconnecting := b;
    }

    function IsReconnecting(): (b: bool)
      reads this
      ensures b == reconnecting
    {
      reconnecting
    }

    /** `getRetries`: this transaction never retries. */
    function Retries(): (n: int)
      ensures n == 0
    {
      0
    }

    /** `setRetries`: ignored. */
    method SetRetries(num: int)
      ensures unchanged(this)
    {
    }

    /** `checkValidity`: the hook does nothing here. */
    method CheckValidity()
      ensures unchanged(this)
    {
    }

    /** Steps 3 to 7 of `execute` on transport `t`: write, read, the
        exception response, closing and the validity hook. */
    method Talk(t: Transport, env: Env) returns (r: Outcome<Fault>, ghost steps: seq<Step>)
      requires connection != null
      modifies this`response, connection
      ensures Run(r, steps) == Exchange(t, env.write, env.read, true, Epilogue(reconnecting, validityCheck))
      ensures response == if env.write.Pass? && env.read.Ok? then Some(env.read.value) else old(response)
      ensures connection.connected ==
        (old(connection.connected) && !(reconnecting && env.write.Pass? && env.read.Ok? && !env.read.value.IsException()))
      ensures connection.transport == old(connection.transport)
    {
      if env.write.Fail? {
        return Fail(Rewrap(env.write.error, true)), [Write(t)];
      }
      steps := [Write(t), Read(t)];
      if env.read.Err? {
        return Fail(Rewrap(env.read.error, true)), steps;
      }
      response := Some(env.read.value);
      if env.read.value.IsException() {
        return Answer(env.read.value), steps;
      }
      if reconnecting {
        connection.Close();
        steps := steps + [CloseLink];
      }
      if validityCheck {
        CheckValidity();
        steps := steps + [Validate];
      }
      r := Pass;
    }

    /** The part of `execute` after the transaction id: the exchange on
        the transport held, or the null dereference when there is none. */
    method Exchanged(env: Env) returns (r: Outcome<Fault>, ghost x: Run)
      requires connection != null
      modifies this`response, connection
      ensures x == Middle(io, env.write, env.read, true, Epilogue(reconnecting, validityCheck))
      ensures r == x.result
      ensures response ==
        if io != null && env.write.Pass? && env.read.Ok? then Some(env.read.value) else old(response)
      ensures connection.connected ==
        (old(connection.connected) &&
         !(io != null && reconnecting && env.write.Pass? && env.read.Ok? && !env.read.value.IsException()))
      ensures connection.transport == old(connection.transport)
    {
      if io == null {
        r := Fail(Escaped(NullPointer));
        x := Run(r, []);
      } else {
        ghost var more;
        r, more := Talk(io, env);
        x := Run(r, more);
      }
    }

    /** `execute`. */
    method Execute(env: Env) returns (r: Outcome<Fault>)
      modifies this, lock, counter, request, connection
      ensures connection == old(connection) && request == old(request)
      ensures validityCheck == old(validityCheck) && reconnecting == old(reconnecting)
      ensures Run(r, lastSteps) ==
        TcpRun(old(request != null && connection != null), old(connection != null && connection.connected),
               old(io), env, reconnecting, validityCheck, old(counter.value) + 1)
      ensures old(request != null && connection != null) ==> !lock.locked
      ensures !old(request != null && connection != null) ==> lock.locked == old(lock.locked)
      ensures counter.value == old(counter.value) +
        if Proceeds(old(request != null && connection != null), old(connection != null && connection.connected), env)
        then 1 else 0
      ensures request != null ==>
        request.transactionId ==
          if Proceeds(old(request != null && connection != null), old(connection != null && connection.connected), env)
          then counter.value else old(request.transactionId)
      ensures io == if Reconnects(old(request != null && connection != null), old(connection != null && connection.connected), env)
                    then env.connect.value else old(io)
      ensures response ==
        if Delivers(old(request != null && connection != null), old(connection != null && connection.connected), old(io), env)
        then Some(env.read.value) else old(response)
      ensures connection != null ==>
        connection.connected ==
          if Proceeds(old(request != null && connection != null), old(connection != null && connection.connected), env)
          then !(reconnecting && Succeeds(true, old(connection.connected), old(io), env))
          else old(connection.connected)
      ensures connection != null ==>
        connection.transport ==
          if Reconnects(old(request != null && connection != null), old(connection != null && connection.connected), env)
          then env.connect.value else old(connection.transport)
    {
      if request == null || connection == null {
        lastSteps := [];
        return Fail(NotExecutable);
      }
      var acquired := lock.Acquire(env.interrupted);
      if !acquired {
        lock.Release();
        lastSteps := [Interrupt, Release];
        return Fail(IOFailure(LockInterrupted));
      }
      ghost var wasConnected := connection.connected;
      if !connection.connected {
        var ok := connection.Connect(env.connect);
        if !ok {
          lock.Release();
          lastSteps := [Acquire, Connect, Release];
          return Fail(IOFailure(ConnectingFailed));
        }
        io := connection.transport;
      }
      var id := counter.Increment();
      request.transactionId := id;
      ghost var x;
      r, x := Exchanged(env);
      lock.Release();
      lastSteps := Head(wasConnected, id) + x.steps + [Release];
    }
  }
}

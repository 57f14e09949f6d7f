/**
 * `ModbusRTUBluetoothTransaction`: one exchange over a classic-Bluetooth
 * master connection. `execute` takes the transaction lock, connects when
 * needed (and then fetches the transport again), writes the request and
 * reads the response, turns an exception response into the slave's error,
 * and releases the lock in every case. Transport failures are passed on as
 * they are, and there is neither a transaction id nor a validity hook.
 */
module BtTransaction {
  import opened Outcomes
  import opened Messages
  import opened TransactionSupport

  /** What `execute` does, given whether the connection is connected, the
      transport the transaction holds, whether a request is set, and the
      outcomes it meets. */
  function BtRun(connected: bool, io: Transport?, hasRequest: bool, env: Env): Run {
    if env.interrupted then Run(Fail(IOFailure(LockInterrupted)), [Interrupt, Release])
    else if !connected && env.connect.None? then
      Run(Fail(IOFailure(ConnectingFailed)), [Acquire, Connect, Release])
    else
      var x := Middle(Used(connected, io, env), WriteOutcome(hasRequest, env), env.read, false, []);
      Run(x.result, Head(connected) + x.steps + [Release])
  }

  /** The steps before the write: the lock, and connecting and fetching the
      transport again when not connected. */
  function Head(connected: bool): seq<Step> {
    if connected then [Acquire] else [Acquire, Connect, Fetch]
  }

  /** Whether `execute` gets past the connect step. */
  predicate Proceeds(connected: bool, env: Env) {
    !env.interrupted && (connected || env.connect.Some?)
  }

  /** Whether `execute` connects, and so fetches the transport again. */
  predicate Reconnects(connected: bool, env: Env) {
    Proceeds(connected, env) && !connected
  }

  /** Whether a response is read and stored. */
  predicate Delivers(connected: bool, io: Transport?, hasRequest: bool, env: Env) {
    Proceeds(connected, env) && Used(connected, io, env) != null
    && WriteOutcome(hasRequest, env).Pass? && env.read.Ok?
  }

  /** Whether `execute` ends normally. */
  predicate Succeeds(connected: bool, io: Transport?, hasRequest: bool, env: Env) {
    Delivers(connected, io, hasRequest, env) && !env.read.value.IsException()
  }

  /** The lock is asked for first, whatever happens, and released exactly
      once, as the last step. */
  lemma LockDiscipline(connected: bool, io: Transport?, hasRequest: bool, env: Env)
    ensures var run := BtRun(connected, io, hasRequest, env);
      && ReleasedOnceAtEnd(run.steps)
      && run.steps[0] == (if env.interrupted then Interrupt else Acquire)
      && (env.interrupted ==> run == Run(Fail(IOFailure(LockInterrupted)), [Interrupt, Release]))
  {
    if Proceeds(connected, env) {
      var x := Middle(Used(connected, io, env), WriteOutcome(hasRequest, env), env.read, false, []);
      MiddleSteps(Used(connected, io, env), WriteOutcome(hasRequest, env), env.read, false, []);
      ReleasedLast(Head(connected), x.steps);
    }
  }

  /** A connection that is not connected is connected first; when that
      fails nothing is written. When it succeeds the transport is fetched
      again right after connecting. */
  lemma ConnectsWhenNeeded(connected: bool, io: Transport?, hasRequest: bool, env: Env)
    ensures var run := BtRun(connected, io, hasRequest, env);
      && (Connect in run.steps <==> !env.interrupted && !connected)
      && (!env.interrupted && !connected && env.connect.None? ==>
            run == Run(Fail(IOFailure(ConnectingFailed)), [Acquire, Connect, Release]))
      && (Fetch in run.steps <==> Reconnects(connected, env))
      && (Reconnects(connected, env) ==> run.steps[1] == Connect && run.steps[2] == Fetch)
  {
    if Proceeds(connected, env) {
      var xs := Middle(Used(connected, io, env), WriteOutcome(hasRequest, env), env.read, false, []).steps;
      MiddleSteps(Used(connected, io, env), WriteOutcome(hasRequest, env), env.read, false, []);
      Quiet(xs);
    }
  }

  /** The request is written once, to the transport the execution ends up
      with, and the response, when read, is read from that transport right
      after the write. Nothing is written when that transport is null. */
  lemma WritesThenReads(connected: bool, io: Transport?, hasRequest: bool, env: Env)
    ensures var run := BtRun(connected, io, hasRequest, env);
      && WritesBeforeReads(run.steps)
      && WritesOnce(run.steps)
      && (Wrote(run.steps) <==> Proceeds(connected, env) && Used(connected, io, env) != null)
      && (forall i :: 0 <= i < |run.steps| && run.steps[i].Write? ==>
            i == |Head(connected)| && run.steps[i].io == Used(connected, io, env))
  {
    if Proceeds(connected, env) {
      var x := Middle(Used(connected, io, env), WriteOutcome(hasRequest, env), env.read, false, []);
      MiddleSteps(Used(connected, io, env), WriteOutcome(hasRequest, env), env.read, false, []);
      Framed(Head(connected), x.steps, [Release]);
    }
  }

  /** How `execute` ends when its environment is one a transport can
      produce: normally exactly when a normal response is read; with the
      slave's error and its code exactly when an exception response is
      read; with the transport's own failure otherwise (with no request,
      the write's "I/O failed to write"); a missing transport is a null
      dereference. */
  lemma Outcome(connected: bool, io: Transport?, hasRequest: bool, env: Env)
    requires Plausible(env)
    ensures var run := BtRun(connected, io, hasRequest, env);
      && (run.result.Pass? <==> Succeeds(connected, io, hasRequest, env))
      && (Delivers(connected, io, hasRequest, env) && env.read.value.IsException() <==>
            run.result.Fail? && run.result.error.SlaveError?)
      && (Delivers(connected, io, hasRequest, env) && env.read.value.IsException() ==>
            run.result == Fail(SlaveError(env.read.value.exceptionCode)))
      && (Proceeds(connected, env) && Used(connected, io, env) == null ==>
            run.result == Fail(Escaped(NullPointer)))
      && (Proceeds(connected, env) && Used(connected, io, env) != null && !hasRequest ==>
            run.result == Fail(IOFailure(WriteFailed)))
      && (Proceeds(connected, env) && Used(connected, io, env) != null && hasRequest && env.write.Fail? ==>
            run.result == Fail(env.write.error))
      && (Proceeds(connected, env) && Used(connected, io, env) != null &&
          WriteOutcome(hasRequest, env).Pass? && env.read.Err? ==>
            run.result == Fail(env.read.error))
  {
    if Proceeds(connected, env) {
      MiddleResult(Used(connected, io, env), WriteOutcome(hasRequest, env), env.read, false, []);
    }
  }

  /** An execution that ends normally takes exactly these steps: the lock,
      connecting if needed, the write, the read and the release. */
  lemma NormalRun(connected: bool, io: Transport?, hasRequest: bool, env: Env)
    requires Succeeds(connected, io, hasRequest, env)
    ensures var used := Used(connected, io, env);
      && used != null
      && BtRun(connected, io, hasRequest, env) ==
         Run(Pass, Head(connected) + [Write(used), Read(used), Release])
  {
    var used := Used(connected, io, env);
    var x := Middle(used, WriteOutcome(hasRequest, env), env.read, false, []);
    assert x.steps == [Write(used), Read(used)];
  }

  class Transaction {
    const connection: Link
    /** `m_TransactionLock`. */
    const lock: Mutex
    var io: Transport?
    var request: Request?
    var response: Option<Response>
    /** The steps of the latest `execute`. */
    ghost var lastSteps: seq<Step>

    /** `ModbusRTUBluetoothTransaction(con)`: the transport is taken from
        the connection at once, and is null if it has none yet. */
    constructor (con: Link)
      ensures connection == con && io == con.transport && request == null && response == None
      ensures fresh(lock) && !lock.locked
    {
      connection := con;
      lock := new Mutex();
      io := con.transport;
      request, response := null, None;
      lastSteps := [];
    }

    method SetRequest(req: Request?)
      modifies this
      ensures request == req && io == old(io) && response == old(response)
    {
      request := req;
    }

    function GetRequest(): (r: Request?)
      reads this
      ensures r == request
    {
      request
    }

    /** `getResponse`: the response last read, `None` before any. */
    function GetResponse(): (r: Option<Response>)
      reads this
      ensures r == response
    {
      response
    }

    /** `getTransactionID`: this transaction has no id. */
    function TransactionID(): (id: int)
      ensures id == 0
    {
      0
    }

    /** `setRetries`: ignored. */
    method SetRetries(retries: int)
      ensures unchanged(this)
    {
    }

    /** `getRetries`: this transaction never retries. */
    function Retries(): (n: int)
      ensures n == 0
    {
      0
    }

    /** `setCheckingValidity`: ignored. */
    method SetCheckingValidity(b: bool)
      ensures unchanged(this)
    {
    }

    /** `isCheckingValidity`: never checking. */
    function IsCheckingValidity(): (b: bool)
      ensures !b
    {
      false
    }

    /** The part of `execute` after connecting. */
    method Exchanged(env: Env) returns (r: Outcome<Fault>, ghost x: Run)
      modifies this`response
      ensures x == Middle(io, WriteOutcome(request != null, env), env.read, false, [])
      ensures r == x.result
      ensures response ==
        if io != null && WriteOutcome(request != null, env).Pass? && env.read.Ok?
        then Some(env.read.value) else old(response)
    {
      if io == null {
        r := Fail(Escaped(NullPointer));
        x := Run(r, []);
        return;
      }
      var written := WriteOutcome(request != null, env);
      if written.Fail? {
        r := Fail(written.error);
        x := Run(r, [Write(io)]);
        return;
      }
      if env.read.Err? {
        r := Fail(env.read.error);
        x := Run(r, [Write(io), Read(io)]);
        return;
      }
      response := Some(env.read.value);
      r := Answer(env.read.value);
      x := Run(r, [Write(io), Read(io)]);
    }

    /** `execute`. */
    method Execute(env: Env) returns (r: Outcome<Fault>)
      modifies this, lock, connection
      ensures request == old(request)
      ensures Run(r, lastSteps) == BtRun(old(connection.connected), old(io), old(request != null), env)
      ensures !lock.locked
      ensures io == if Reconnects(old(connection.connected), env) then env.connect.value else old(io)
      ensures response ==
        if Delivers(old(connection.connected), old(io), old(request != null), env)
        then Some(env.read.value) else old(response)
      ensures connection.connected == (old(connection.connected) || Proceeds(old(connection.connected), env))
      ensures connection.transport ==
        if Reconnects(old(connection.connected), env) then env.connect.value else old(connection.transport)
    {
      var acquired := lock.Acquire(env.interrupted);
      if !acquired {
        lock.Release();
        lastSteps := [Interrupt, Release];
        return Fail(IOFailure(LockInterrupted));
      }
      ghost var wasConnected := connection.connected;
      if !connection.connected {
        var ok := connection.Connect(env.connect);
        if !ok {
          lock.Release();
          lastSteps := [Acquire, Connect, Release];
          return Fail(IOFailure(ConnectingFailed));
        }
        io := connection.transport;
      }
      ghost var x;
      r, x := Exchanged(env);
      lock.Release();
      lastSteps := Head(wasConnected) + x.steps + [Release];
    }
  }
}

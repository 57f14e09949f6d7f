/**
 * `ModbusRTUBLETransaction`: one exchange over a BLE master connection.
 * Unlike the other two executors it takes no lock and retries nothing:
 * `execute` connects when needed, fetches the connection's transport on
 * every call, writes the request and reads the response, and turns an
 * exception response into the slave's error. Transport failures are passed
 * on as they are.
 */
module BleTransaction {
  import opened Outcomes
  import opened Messages
  import opened TransactionSupport

  /** What `execute` does, given whether a connection is set, whether it is
      connected, the transport it has, whether a request is set, and the
      outcomes met. */
  function BleRun(linked: bool, connected: bool, linkTransport: Transport?, hasRequest: bool, env: Env): Run {
    if !linked then Run(Fail(Escaped(NullPointer)), [])
    else if !connected && env.connect.None? then Run(Fail(IOFailure(ConnectingFailed)), [Connect])
    else
      var x := Middle(Used(connected, linkTransport, env), WriteOutcome(hasRequest, env), env.read, false, []);
      Run(x.result, Head(connected) + x.steps)
  }

  /** The steps before the write: connecting when not connected, and
      fetching the transport in any case. */
  function Head(connected: bool): seq<Step> {
    if connected then [Fetch] else [Connect, Fetch]
  }

  /** Whether `execute` gets past the connect step. */
  predicate Proceeds(linked: bool, connected: bool, env: Env) {
    linked && (connected || env.connect.Some?)
  }

  /** Whether a response is read and stored. */
  predicate Delivers(linked: bool, connected: bool, linkTransport: Transport?, hasRequest: bool, env: Env) {
    Proceeds(linked, connected, env) && Used(connected, linkTransport, env) != null
    && WriteOutcome(hasRequest, env).Pass? && env.read.Ok?
  }

  /** Whether `execute` ends normally. */
  predicate Succeeds(linked: bool, connected: bool, linkTransport: Transport?, hasRequest: bool, env: Env) {
    Delivers(linked, connected, linkTransport, hasRequest, env) && !env.read.value.IsException()
  }

  /** No lock is involved, on any path; a missing connection is a null
      dereference before any step. */
  lemma NoLock(linked: bool, connected: bool, linkTransport: Transport?, hasRequest: bool, env: Env)
    ensures var run := BleRun(linked, connected, linkTransport, hasRequest, env);
      && Acquire !in run.steps && Release !in run.steps && Interrupt !in run.steps
      && (!linked ==> run == Run(Fail(Escaped(NullPointer)), []))
  {
    if Proceeds(linked, connected, env) {
      var xs := Middle(Used(connected, linkTransport, env), WriteOutcome(hasRequest, env), env.read, false, []).steps;
      MiddleSteps(Used(connected, linkTransport, env), WriteOutcome(hasRequest, env), env.read, false, []);
      Quiet(xs);
      assert Release !in xs && Interrupt !in xs;
    }
  }

  /** A connection that is not connected is connected first; when that
      fails nothing is fetched or written. The transport is fetched on
      every execution that gets past that step, right before the write. */
  lemma FetchesEveryTime(linked: bool, connected: bool, linkTransport: Transport?, hasRequest: bool, env: Env)
    ensures var run := BleRun(linked, connected, linkTransport, hasRequest, env);
      && (Connect in run.steps <==> linked && !connected)
      && (linked && !connected && env.connect.None? ==>
            run == Run(Fail(IOFailure(ConnectingFailed)), [Connect]))
      && (Fetch in run.steps <==> Proceeds(linked, connected, env))
      && (Proceeds(linked, connected, env) ==> run.steps[|Head(connected)| - 1] == Fetch)
      && (forall i :: 0 <= i < |run.steps| && run.steps[i].Write? ==> 0 < i && run.steps[i - 1] == Fetch)
  {
    if Proceeds(linked, connected, env) {
      var xs := Middle(Used(connected, linkTransport, env), WriteOutcome(hasRequest, env), env.read, false, []).steps;
      MiddleSteps(Used(connected, linkTransport, env), WriteOutcome(hasRequest, env), env.read, false, []);
      Quiet(xs);
      Framed(Head(connected), xs, []);
      assert Head(connected) + xs + [] == Head(connected) + xs;
    }
  }

  /** The request is written once, to the transport just fetched, and the
      response, when read, is read from it right after the write. */
  lemma WritesThenReads(linked: bool, connected: bool, linkTransport: Transport?, hasRequest: bool, env: Env)
    ensures var run := BleRun(linked, connected, linkTransport, hasRequest, env);
      && WritesBeforeReads(run.steps)
      && WritesOnce(run.steps)
      && (Wrote(run.steps) <==> Proceeds(linked, connected, env) && Used(connected, linkTransport, env) != null)
      && (forall i :: 0 <= i < |run.steps| && run.steps[i].Write? ==>
            run.steps[i].io == Used(connected, linkTransport, env))
  {
    if Proceeds(linked, connected, env) {
      var xs := Middle(Used(connected, linkTransport, env), WriteOutcome(hasRequest, env), env.read, false, []).steps;
      MiddleSteps(Used(connected, linkTransport, env), WriteOutcome(hasRequest, env), env.read, false, []);
      Framed(Head(connected), xs, []);
      assert Head(connected) + xs + [] == Head(connected) + xs;
    }
  }

  /** How `execute` ends when its environment is one a transport can
      produce: normally exactly when a normal response is read; with the
      slave's error and its code exactly when an exception response is
      read; with the transport's own failure otherwise; a missing transport
      is a null dereference. */
  lemma Outcome(linked: bool, connected: bool, linkTransport: Transport?, hasRequest: bool, env: Env)
    requires Plausible(env)
    ensures var run := BleRun(linked, connected, linkTransport, hasRequest, env);
      && (run.result.Pass? <==> Succeeds(linked, connected, linkTransport, hasRequest, env))
      && (Delivers(linked, connected, linkTransport, hasRequest, env) && env.read.value.IsException() <==>
            run.result.Fail? && run.result.error.SlaveError?)
      && (Delivers(linked, connected, linkTransport, hasRequest, env) && env.read.value.IsException() ==>
            run.result == Fail(SlaveError(env.read.value.exceptionCode)))
      && (Proceeds(linked, connected, env) && Used(connected, linkTransport, env) == null ==>
            run.result == Fail(Escaped(NullPointer)))
      && (Proceeds(linked, connected, env) && Used(connected, linkTransport, env) != null &&
          WriteOutcome(hasRequest, env).Fail? ==>
            run.result == Fail(WriteOutcome(hasRequest, env).error))
      && (Proceeds(linked, connected, env) && Used(connected, linkTransport, env) != null &&
          WriteOutcome(hasRequest, env).Pass? && env.read.Err? ==>
            run.result == Fail(env.read.error))
  {
    if Proceeds(linked, connected, env) {
      MiddleResult(Used(connected, linkTransport, env), WriteOutcome(hasRequest, env), env.read, false, []);
    }
  }

  class Transaction {
    const connection: Link?
    var io: Transport?
    var request: Request?
    var response: Option<Response>
    /** The steps of the latest `execute`. */
    ghost var lastSteps: seq<Step>

    /** `ModbusRTUBLETransaction(con)`: the transport is fetched only when
        executing. */
    constructor (con: Link?)
      ensures connection == con && io == null && request == null && response == None
    {
      connection := con;
      io, request, response := null, null, None;
      lastSteps := [];
    }

    method SetRequest(req: Request?)
      modifies this
      ensures request == req && io == old(io) && response == old(response)
    {
      request := req;
    }

    function GetRequest(): (r: Request?)
      reads this
      ensures r == request
    {
      request
    }

    /** `getResponse`: the response last read, `None` before any. */
    function GetResponse(): (r: Option<Response>)
      reads this
      ensures r == response
    {
      response
    }

    /** `getTransactionID`: this transaction has no id. */
    function TransactionID(): (id: int)
      ensures id == 0
    {
      0
    }

    /** `setRetries`: ignored. */
    method SetRetries(retries: int)
      ensures unchanged(this)
    {
    }

    /** `getRetries`: this transaction never retries. */
    function Retries(): (n: int)
      ensures n == 0
    {
      0
    }

    /** `setCheckingValidity`: ignored. */
    method SetCheckingValidity(b: bool)
      ensures unchanged(this)
    {
    }

    /** `isCheckingValidity`: never checking. */
    function IsCheckingValidity(): (b: bool)
      ensures !b
    {
      false
    }

    /** The part of `execute` after fetching the transport. */
    method Exchanged(env: Env) returns (r: Outcome<Fault>, ghost x: Run)
      modifies this`response
      ensures x == Middle(io, WriteOutcome(request != null, env), env.read, false, [])
      ensures r == x.result
      ensures response ==
        if io != null && WriteOutcome(request != null, env).Pass? && env.read.Ok?
        then Some(env.read.value) else old(response)
    {
      if io == null {
        r := Fail(Escaped(NullPointer));
        x := Run(r, []);
        return;
      }
      var written := WriteOutcome(request != null, env);
      if written.Fail? {
        r := Fail(written.error);
        x := Run(r, [Write(io)]);
        return;
      }
      if env.read.Err? {
        r := Fail(env.read.error);
        x := Run(r, [Write(io), Read(io)]);
        return;
      }
      response := Some(env.read.value);
      r := Answer(env.read.value);
      x := Run(r, [Write(io), Read(io)]);
    }

    /** `execute`. */
    method Execute(env: Env) returns (r: Outcome<Fault>)
      modifies this, connection
      ensures request == old(request)
      ensures connection != null ==>
        Run(r, lastSteps) ==
          BleRun(true, old(connection.connected), old(connection.transport), old(request != null), env)
      ensures connection == null ==>
        r == Fail(Escaped(NullPointer)) && lastSteps == [] && io == old(io) && response == old(response)
      ensures connection != null && Proceeds(true, old(connection.connected), env) ==>
        io == Used(old(connection.connected), old(connection.transport), env)
      ensures connection != null && !Proceeds(true, old(connection.connected), env) ==> io == old(io)
      ensures connection != null ==>
        response ==
          if Delivers(true, old(connection.connected), old(connection.transport), old(request != null), env)
          then Some(env.read.value) else old(response)
      ensures connection != null ==>
        connection.connected == (old(connection.connected) || env.connect.Some?)
      ensures connection != null ==>
        connection.transport ==
          if !old(connection.connected) && env.connect.Some? then env.connect.value else old(connection.transport)
    {
      if connection == null {
        lastSteps := [];
        return Fail(Escaped(NullPointer));
      }
      ghost var wasConnected := connection.connected;
      if !connection.connected {
        var ok := connection.Connect(env.connect);
        if !ok {
          lastSteps := [Connect];
          return Fail(IOFailure(ConnectingFailed));
        }
      }
      io := connection.transport;
      ghost var x;
      r, x := Exchanged(env);
      lastSteps := Head(wasConnected) + x.steps;
    }
  }
}

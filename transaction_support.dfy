/**
 * What the three transaction executors work with: the transaction lock,
 * the transaction counter, the request, and the connection and transport
 * as the executors see them. The connection's and the transport's own
 * behaviour is modelled in their modules; here each appears through the
 * outcomes one execution meets (`Env`), and an execution records the steps
 * it took (`Step`) so that their order can be stated.
 */
module TransactionSupport {
  import opened Outcomes
  import opened RtuFrame
  import opened Messages

  /** `util.Mutex`: `acquire` waits until the lock is free and takes it,
      or throws InterruptedException without taking it; `release` frees it
      whoever holds it. */
  class Mutex {
    var locked: bool

    constructor ()
      ensures !locked
    {
      locked := false;
    }

    method Acquire(interrupted: bool) returns (ok: bool)
      modifies this
      ensures ok <==> !interrupted
      ensures locked == (ok || old(locked))
    {
      if interrupted {
        return false;
      }
      locked := true;
      ok := true;
    }

    method Release()
      modifies this
      ensures !locked
    {
      locked := false;
    }
  }

  /** `util.AtomicCounter` behind the transaction identifiers. */
  class AtomicCounter {
    var value: int

    constructor (initial: int)
      ensures value == initial
    {
      value := initial;
    }

    /** `increment`: adds one and answers the new value. */
    method Increment() returns (v: int)
      modifies this
      ensures value == old(value) + 1 && v == value
    {
      value := value + 1;
      v := value;
    }
  }

  /** A `ModbusRequest`: its serialised form and its transaction id. */
  class Request {
    const payload: seq<byte>
    var transactionId: int

    constructor (payload: seq<byte>, transactionId: int)
      ensures this.payload == payload && this.transactionId == transactionId
    {
      this.payload := payload;
      this.transactionId := transactionId;
    }
  }

  /** A `ModbusTransport`, known to the executors only by its identity. */
  class Transport {
    constructor ()
    {
    }
  }

  /** A master connection as the executors use it: `isConnected`,
      `connect`, `getModbusTransport` and `close`. */
  class Link {
    var connected: bool
    var transport: Transport?

    constructor (connected: bool, transport: Transport?)
      ensures this.connected == connected && this.transport == transport
    {
      this.connected := connected;
      this.transport := transport;
    }

    /** `connect`: nothing when connected; otherwise `outcome` is `None`
        when connecting throws, or the transport the connection then has. */
    method Connect(outcome: Option<Transport>) returns (ok: bool)
      modifies this
      ensures old(connected) ==> ok && connected && transport == old(transport)
      ensures !old(connected) ==> (ok <==> outcome.Some?)
      ensures !old(connected) && outcome.Some? ==> connected && transport == outcome.value
      ensures !old(connected) && outcome.None? ==> !connected && transport == old(transport)
    {
      if connected {
        return true;
      }
      if outcome.None? {
        return false;
      }
      connected := true;
      transport := outcome.value;
      ok := true;
    }

    /** `close`: the connection is no longer connected. */
    method Close()
      modifies this
      ensures !connected && transport == old(transport)
    {
      connected := false;
    }
  }

  /** The outcomes one execution meets: whether acquiring the lock is
      interrupted, how connecting ends (when it is tried), and how the
      transport's write and read end. */
  datatype Env = Env(
    interrupted: bool,
    connect: Option<Transport>,
    write: Outcome<Fault>,
    read: Result<Response, Fault>)

  /** What an execution did, in order. */
  datatype Step =
    | Acquire            // the lock was taken
    | Interrupt          // acquiring the lock was interrupted
    | Connect            // `connect` was called
    | Fetch              // the transport was fetched from the connection
    | Stamp(id: int)     // the request received a new transaction id
    | Write(io: Transport)
    | Read(io: Transport)
    | CloseLink          // the connection was closed after the exchange
    | Validate           // `checkValidity` ran
    | Release            // the lock was released

  /** An execution's verdict together with the steps it took. */
  datatype Run = Run(result: Outcome<Fault>, steps: seq<Step>)

  /** How `execute` ends once write and read are done: an exception
      response is the slave's error, anything else a success. */
  function Answer(resp: Response): Outcome<Fault> {
    if resp.IsException() then Fail(SlaveError(resp.exceptionCode)) else Pass
  }

  /** How a transport failure leaves `execute`: re-raised as "Executing
      transaction failed." when `rewrap` is set and the failure is a
      `ModbusIOException`, and passed on unchanged otherwise. */
  function Rewrap(f: Fault, rewrap: bool): (g: Fault)
    ensures g.IOFailure? <==> f.IOFailure?
    ensures !(rewrap && f.IOFailure?) ==> g == f
  {
    if rewrap && f.IOFailure? then IOFailure(ExecutingFailed) else f
  }

  /** How `writeMessage(request)` ends: with no request the transport's
      catch-all turns the null dereference into "I/O failed to write". */
  function WriteOutcome(hasRequest: bool, env: Env): (w: Outcome<Fault>)
    ensures hasRequest ==> w == env.write
  {
    if hasRequest then env.write else Fail(IOFailure(WriteFailed))
  }

  /** The write-then-read exchange on transport `io` that every executor
      performs, and `tail` the steps that follow a normal response. */
  function Exchange(io: Transport, write: Outcome<Fault>, read: Result<Response, Fault>,
                    rewrap: bool, tail: seq<Step>): Run
  {
    if write.Fail? then Run(Fail(Rewrap(write.error, rewrap)), [Write(io)])
    else if read.Err? then Run(Fail(Rewrap(read.error, rewrap)), [Write(io), Read(io)])
    else if read.value.IsException() then Run(Answer(read.value), [Write(io), Read(io)])
    else Run(Pass, [Write(io), Read(io)] + tail)
  }

  /** The steps end with the one release of the lock. */
  predicate ReleasedOnceAtEnd(steps: seq<Step>) {
    |steps| > 0 && steps[|steps| - 1] == Release && forall i :: 0 <= i < |steps| - 1 ==> steps[i] != Release
  }

  /** Step `s` occurs exactly once. */
  predicate OccursOnce(steps: seq<Step>, s: Step) {
    exists k :: 0 <= k < |steps| && steps[k] == s && forall i :: 0 <= i < |steps| && steps[i] == s ==> i == k
  }

  /** Some request was written. */
  predicate Wrote(steps: seq<Step>) {
    exists i :: 0 <= i < |steps| && steps[i].Write?
  }

  /** Every read directly follows the write on the same transport. */
  predicate WritesBeforeReads(steps: seq<Step>) {
    forall i :: 0 <= i < |steps| && steps[i].Read? ==> 0 < i && steps[i - 1] == Write(steps[i].io)
  }

  /** At most one request is written. */
  predicate WritesOnce(steps: seq<Step>) {
    forall i, j :: 0 <= i < j < |steps| && steps[i].Write? ==> !steps[j].Write?
  }

  /** A failure a transport can raise: a `ModbusIOException` or an
      unchecked exception, never a slave's error nor "not executable". */
  predicate TransportFault(f: Fault) {
    f.IOFailure? || f.Escaped? || f.SocketError?
  }

  /** The outcomes an environment of a transport can produce. */
  predicate Plausible(env: Env) {
    && (env.write.Fail? ==> TransportFault(env.write.error))
    && (env.read.Err? ==> TransportFault(env.read.error))
  }

  /** The steps that may follow a normal response. */
  predicate QuietTail(tail: seq<Step>) {
    forall i :: 0 <= i < |tail| ==> tail[i].CloseLink? || tail[i].Validate?
  }

  /** The steps of an exchange: only the write at the start, only the read
      right after it on the same transport, and otherwise the quiet steps. */
  predicate ExchangeShaped(xs: seq<Step>) {
    && (|xs| > 0 ==> xs[0].Write?)
    && (forall i :: 0 <= i < |xs| ==> xs[i].Write? || xs[i].Read? || xs[i].CloseLink? || xs[i].Validate?)
    && (forall i :: 0 <= i < |xs| && xs[i].Write? ==> i == 0)
    && (forall i :: 0 <= i < |xs| && xs[i].Read? ==> i == 1 && xs[0] == Write(xs[1].io))
  }

  /** The middle of an execution neither asks for the lock, connects nor
      fetches. */
  lemma Quiet(xs: seq<Step>)
    requires ExchangeShaped(xs)
    ensures Connect !in xs && Fetch !in xs && Acquire !in xs
  {
  }

  /** The exchange on the transport in use, or the null dereference that
      `writeMessage` on a missing transport is. */
  function Middle(used: Transport?, write: Outcome<Fault>, read: Result<Response, Fault>,
                  rewrap: bool, tail: seq<Step>): Run
  {
    if used == null then Run(Fail(Escaped(NullPointer)), [])
    else Exchange(used, write, read, rewrap, tail)
  }

  /** The shape of the middle of an execution: nothing without a
      transport; otherwise one write first, the read right after it when
      the write went through, and `tail` exactly after a normal response. */
  lemma MiddleSteps(used: Transport?, write: Outcome<Fault>, read: Result<Response, Fault>,
                    rewrap: bool, tail: seq<Step>)
    requires QuietTail(tail)
    ensures var xs := Middle(used, write, read, rewrap, tail).steps;
      && ExchangeShaped(xs)
      && (|xs| > 0 <==> used != null)
      && (used != null ==> xs[0] == Write(used))
      && (|xs| >= 2 <==> used != null && write.Pass?)
      && (used != null && write.Pass? && read.Ok? && !read.value.IsException() ==> xs[2..] == tail)
      && (!(used != null && write.Pass? && read.Ok? && !read.value.IsException()) ==>
            |xs| <= 2 && forall i :: 0 <= i < |xs| ==> xs[i].Write? || xs[i].Read?)
  {
    if used != null && write.Pass? && read.Ok? && !read.value.IsException() {
      var xs := Middle(used, write, read, rewrap, tail).steps;
      assert xs == [Write(used), Read(used)] + tail;
      assert forall i :: 2 <= i < |xs| ==> xs[i] == tail[i - 2];
    }
  }

  /** How the middle of an execution ends: normally exactly when a normal
      response is read, with the slave's error exactly when an exception
      response is read, and otherwise with the transport's failure
      (re-raised when `rewrap`) or the null dereference. */
  lemma MiddleResult(used: Transport?, write: Outcome<Fault>, read: Result<Response, Fault>,
                     rewrap: bool, tail: seq<Step>)
    requires write.Fail? ==> TransportFault(write.error)
    requires read.Err? ==> TransportFault(read.error)
    ensures var x := Middle(used, write, read, rewrap, tail);
      && (used == null ==> x.result == Fail(Escaped(NullPointer)))
      && (x.result.Pass? <==> used != null && write.Pass? && read.Ok? && !read.value.IsException())
      && (x.result.Fail? && x.result.error.SlaveError? <==>
            used != null && write.Pass? && read.Ok? && read.value.IsException())
      && (used != null && write.Pass? && read.Ok? && read.value.IsException() ==>
            x.result == Fail(SlaveError(read.value.exceptionCode)))
      && (used != null && write.Fail? ==> x.result == Fail(Rewrap(write.error, rewrap)))
      && (used != null && write.Pass? && read.Err? ==> x.result == Fail(Rewrap(read.error, rewrap)))
  {
  }

  /** The transport written to once an execution gets past the connect
      step: the one held when already connected, else the one fetched. */
  function Used(connected: bool, io: Transport?, env: Env): Transport?
    requires connected || env.connect.Some?
  {
    if connected then io else env.connect.value
  }

  /** An execution that got past connecting: `head`, the middle's steps,
      and `end`. The middle's single write comes right after `head` and
      each read right after its write. */
  lemma {:induction false} Framed(head: seq<Step>, xs: seq<Step>, end: seq<Step>)
    requires forall i :: 0 <= i < |head| ==> !head[i].Write? && !head[i].Read?
    requires forall i :: 0 <= i < |end| ==> !end[i].Write? && !end[i].Read?
    requires ExchangeShaped(xs)
    ensures var s := head + xs + end;
      && (forall i :: 0 <= i < |head| ==> s[i] == head[i])
      && (forall j :: 0 <= j < |xs| ==> s[|head| + j] == xs[j])
      && (forall j :: 0 <= j < |end| ==> s[|head| + |xs| + j] == end[j])
      && WritesBeforeReads(s)
      && WritesOnce(s)
      && (forall i :: 0 <= i < |s| && s[i].Write? ==> i == |head|)
      && (Wrote(s) <==> |xs| > 0)
  {
    var s := head + xs + end;
    assert forall i :: 0 <= i < |head| ==> s[i] == head[i];
    assert forall j :: 0 <= j < |xs| ==> s[|head| + j] == xs[j];
    assert forall i :: |head| <= i < |head| + |xs| ==> s[i] == xs[i - |head|];
    assert forall i :: |head| + |xs| <= i < |s| ==> s[i] == end[i - |head| - |xs|];
  }

  /** The release after `head` and the middle comes once and last. */
  lemma ReleasedLast(head: seq<Step>, xs: seq<Step>)
    requires forall i :: 0 <= i < |head| ==> head[i] != Release
    requires ExchangeShaped(xs)
    ensures ReleasedOnceAtEnd(head + xs + [Release])
  {
    var s := head + xs + [Release];
    assert forall i :: 0 <= i < |head| ==> s[i] == head[i];
    assert forall i :: |head| <= i < |head| + |xs| ==> s[i] == xs[i - |head|];
  }
}

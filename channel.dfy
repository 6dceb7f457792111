/**
 * The command channel to the television, reduced to the two operations the
 * accessories use, and the record of what one accessory did with it.
 *
 * `sendCommand(token)` either resolves (the transport took the token) or
 * rejects with an error; `isAlive()` either resolves with a boolean or rejects.
 * Their answers are not computed here: each handler receives the answer the
 * channel gave to its one call as a parameter.
 */
module Channel {
  import opened Wrappers
  import opened Host

  /** A vendor command token; `None` is JavaScript's `undefined`, which a missing key-table entry yields. */
  type Token = Option<string>

  datatype Error = Error(reason: string)

  /** How `sendCommand` settled. */
  datatype SendResult = Sent | SendFailed(error: Error)

  /** How `isAlive` settled. */
  datatype ProbeResult = Alive(alive: bool) | ProbeFailed(error: Error)

  /**
   * One observable step of a handler: a command sent, a liveness probe issued,
   * or the host's completion callback invoked (with an error, or with a value for a get).
   */
  datatype Event =
    | Send(token: Token)
    | Probe
    | Callback(error: Option<Error>, value: Option<Value>)

  /** The error a set handler passes to its callback after the send settled. */
  function ErrorOf(r: SendResult): (e: Option<Error>)
    ensures e.Some? <==> r.SendFailed?
    ensures e.Some? ==> e.value == r.error
  {
    match r
    case Sent => None
    case SendFailed(err) => Some(err)
  }

  /** The events a set handler produces: the one send, then the one callback. */
  function SetRecord(token: Token, r: SendResult): seq<Event>
  {
    [Send(token), Callback(ErrorOf(r), None)]
  }

  /** Number of channel calls (sends and probes) in a trace. */
  function Commands(trace: seq<Event>): nat
  {
    if trace == [] then 0
    else (if trace[0].Callback? then 0 else 1) + Commands(trace[1..])
  }

  /** Number of callback invocations in a trace. */
  function Callbacks(trace: seq<Event>): nat
  {
    if trace == [] then 0
    else (if trace[0].Callback? then 1 else 0) + Callbacks(trace[1..])
  }

  /** The tokens sent, in order. */
  function SentTokens(trace: seq<Event>): seq<Token>
  {
    if trace == [] then []
    else (if trace[0].Send? then [trace[0].token] else []) + SentTokens(trace[1..])
  }

  /** Counting is additive over a trace that grows by appending. */
  lemma {:induction false} CountsAppend(a: seq<Event>, b: seq<Event>)
    ensures Commands(a + b) == Commands(a) + Commands(b)
    ensures Callbacks(a + b) == Callbacks(a) + Callbacks(b)
    ensures SentTokens(a + b) == SentTokens(a) + SentTokens(b)
  {
    if a == [] {
      assert a + b == b;
    } else {
      assert (a + b)[1..] == a[1..] + b;
      CountsAppend(a[1..], b);
    }
  }

  /** A two-event record with one callback holds exactly one command and one callback. */
  lemma PairOnce(a: Event, b: Event)
    requires a.Callback? != b.Callback?
    ensures Commands([a, b]) == 1 && Callbacks([a, b]) == 1
  {
    assert [a, b][1..] == [b] && [b][1..] == [];
    assert Commands([b]) == (if b.Callback? then 0 else 1);
    assert Callbacks([b]) == (if b.Callback? then 1 else 0);
  }

  /** A set handler's record holds exactly one command, exactly the given token, and exactly one callback. */
  lemma SetRecordOnce(token: Token, r: SendResult)
    ensures Commands(SetRecord(token, r)) == 1
    ensures Callbacks(SetRecord(token, r)) == 1
    ensures SentTokens(SetRecord(token, r)) == [token]
  {
    var c := Callback(ErrorOf(r), None);
    PairOnce(Send(token), c);
    assert [Send(token), c][1..] == [c] && [c][1..] == [];
    assert SentTokens([c]) == [];
  }
}

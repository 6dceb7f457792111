/**
 * The television accessory: the power handlers and the remote-key handler.
 *
 * Each handler makes one call to the command channel and invokes the host's
 * completion callback once. The class keeps the cached power state
 * (`states.On`), the values of the Active and ActiveIdentifier
 * characteristics, and the trace of channel calls and callbacks.
 */
module Tv {
  import opened Wrappers
  import opened Host
  import opened Channel
  import opened RemoteKeys

  /** The power token for a requested Active value: power on for a truthy request, power off otherwise. */
  function PowerToken(on: Value): (t: string)
    ensures t == "KEY_POWERON" <==> Truthy(on)
    ensures t == "KEY_POWERON" || t == "KEY_POWEROFF"
  {
    if Truthy(on) then "KEY_POWERON" else "KEY_POWEROFF"
  }

  /**
   * The answer of the Active getter: `ActiveIdentifier.value || false`. It has
   * the truthiness of ActiveIdentifier and is that value or `false`.
   */
  function ActiveAnswer(activeIdentifier: Value): (r: Value)
    ensures Truthy(r) <==> Truthy(activeIdentifier)
    ensures Truthy(activeIdentifier) ==> r == activeIdentifier
    ensures !Truthy(activeIdentifier) ==> r == Bool(false)
  {
    if Truthy(activeIdentifier) then activeIdentifier else Bool(false)
  }

  /** The power state a settled probe leaves: the probe's answer, or off when the probe failed. */
  function ProbedOn(p: ProbeResult): (on: bool)
    ensures on <==> p == Alive(true)
  {
    match p
    case Alive(alive) => alive
    case ProbeFailed(_) => false
  }

  /**
   * The token the remote-key handler sends for a button code: the table entry
   * under `code`, or `undefined` when there is none. No error is raised for a
   * missing entry.
   */
  function RemoteToken(keys: map<CodeKey, string>, code: int): (t: Token)
    ensures t.Some? <==> Code(code) in keys
  {
    if Code(code) in keys then Some(keys[Code(code)]) else None
  }

  /**
   * For a table built from the defaults and a configuration, a button the
   * vocabulary defines resolves to the merged table's token for it, and to
   * `undefined` when the merged table does not name it.
   */
  lemma RemoteTokenResolves(config: seq<Entry>, vocab: Vocabulary, name: string)
    requires Injective(vocab) && name in vocab
    ensures RemoteToken(ByCode(Overridden(DEFAULTS, config, vocab), vocab), vocab[name])
         == Get(Overridden(DEFAULTS, config, vocab), name)
  {
    var keys := Overridden(DEFAULTS, config, vocab);
    DefaultsDistinct();
    BuiltReads(DEFAULTS, config, vocab, name);
    GetAbsent(keys, name);
  }

  /** A code that no vocabulary name has is sent as `undefined`. */
  lemma UnknownCodeSendsUndefined(t: Table, vocab: Vocabulary, code: int)
    requires forall n :: n in vocab ==> vocab[n] != code
    ensures RemoteToken(ByCode(t, vocab), code) == None
  {
  }

  class TV {
    /** `remoteKeys`: the table built once by the constructor. */
    const keys: map<CodeKey, string>
    /** `states.On`; it holds whatever value the power setter was given (the cast to boolean is a type assertion only). */
    var on: Value
    /** The Active characteristic's value. */
    var active: Value
    /** The ActiveIdentifier characteristic's value. */
    var activeIdentifier: Value
    /** Channel calls and callbacks, in the order the handlers made them. */
    var trace: seq<Event>
    /** Number of handler invocations so far. */
    ghost var calls: nat

    /** Every invocation made exactly one channel call and invoked its callback exactly once. */
    ghost predicate Valid()
      reads this
    {
      Commands(trace) == calls && Callbacks(trace) == calls
    }

    /**
     * Builds the key table from the shared defaults (which the build updates),
     * starts with power off and ActiveIdentifier 1; Active keeps the host's value.
     */
    constructor (defaults: KeyDefaults, config: seq<Entry>, vocab: Vocabulary, active0: Value)
      requires defaults.Valid()
      modifies defaults
      ensures defaults.Valid()
      ensures defaults.table == Overridden(old(defaults.table), config, vocab)
      ensures keys == ByCode(defaults.table, vocab)
      ensures on == Bool(false) && active == active0 && activeIdentifier == Num(1)
      ensures trace == [] && calls == 0 && Valid()
    {
      var built := defaults.Build(config, vocab);
      keys := built;
      on := Bool(false);
      active := active0;
      activeIdentifier := Num(1);
      trace := [];
      calls := 0;
    }

    /**
     * Remote-key press: send the table's token for the button code, then report
     * the outcome. The power state and the characteristics are not touched.
     */
    method SetRemote(value: int, reply: SendResult)
      requires Valid()
      modifies this`trace, this`calls
      ensures Valid() && calls == old(calls) + 1
      ensures trace == old(trace) + SetRecord(RemoteToken(keys, value), reply)
    {
      var record := SetRecord(RemoteToken(keys, value), reply);
      SetRecordOnce(RemoteToken(keys, value), reply);
      CountsAppend(trace, record);
      calls := calls + 1;
      trace := trace + record;
    }

    /**
     * Power set: send power on or off, report the outcome, and on success cache
     * the requested value; on failure the cache is unchanged.
     */
    method SetOn(value: Value, reply: SendResult)
      requires Valid()
      modifies this`trace, this`calls, this`on
      ensures Valid() && calls == old(calls) + 1
      ensures trace == old(trace) + SetRecord(Some(PowerToken(value)), reply)
      ensures on == if reply.Sent? then value else old(on)
    {
      var record := SetRecord(Some(PowerToken(value)), reply);
      SetRecordOnce(Some(PowerToken(value)), reply);
      CountsAppend(trace, record);
      calls := calls + 1;
      trace := trace + [Send(Some(PowerToken(value)))];
      match reply {
        case Sent =>
          trace := trace + [Callback(None, None)];
          on := value;
        case SendFailed(error) =>
          trace := trace + [Callback(Some(error), None)];
      }
      assert trace == old(trace) + record;
    }

    /**
     * Power get: answer at once from ActiveIdentifier, then probe the set and
     * store the probe's verdict (off on failure) in the cache and in Active.
     */
    method GetOn(probe: ProbeResult)
      requires Valid()
      modifies this`trace, this`calls, this`on, this`active
      ensures Valid() && calls == old(calls) + 1
      ensures trace == old(trace) + [Callback(None, Some(ActiveAnswer(activeIdentifier))), Probe]
      ensures on == Bool(ProbedOn(probe)) && active == on
    {
      var record := [Callback(None, Some(ActiveAnswer(activeIdentifier))), Probe];
      PairOnce(record[0], record[1]);
      CountsAppend(trace, record);
      calls := calls + 1;
      trace := trace + [Callback(None, Some(ActiveAnswer(activeIdentifier)))];
      trace := trace + [Probe];
      match probe {
        case Alive(alive) =>
          on := Bool(alive);
          active := on;
        case ProbeFailed(_) =>
          on := Bool(false);
          active := on;
      }
      assert trace == old(trace) + record;
    }
  }

  /**
   * A client: a power-off that the channel takes, then a power query. The
   * query still answers 1 (the ActiveIdentifier value), not the cached power
   * state; the probe that follows (here: not alive) brings the cache and
   * Active to its verdict. Returns the token sent, the query's answer and the
   * final cached power state.
   */
  method PowerOffThenQuery(vocab: Vocabulary) returns (sent: Token, answer: Option<Value>, on: Value)
    ensures sent == Some("KEY_POWEROFF")
    ensures answer == Some(Num(1))
    ensures on == Bool(false)
  {
    var defaults := new KeyDefaults();
    var tv := new TV(defaults, [], vocab, Num(1));
    tv.SetOn(Num(0), Sent);
    assert tv.on == Num(0) && tv.trace == [Send(Some("KEY_POWEROFF")), Callback(None, None)];
    tv.GetOn(Alive(false));
    assert tv.trace[2] == Callback(None, Some(Num(1)));
    assert tv.active == Bool(false);
    sent, answer, on := tv.trace[0].token, tv.trace[2].value, tv.on;
  }
}

/**
 * The television speaker accessory: the Mute and VolumeSelector set handlers.
 *
 * Each handler sends exactly one token and invokes the host's completion
 * callback once; on success it echoes the requested value into the cached
 * value of the Mute or Volume characteristic.
 */
module Speaker {
  import opened Wrappers
  import opened Host
  import opened Channel

  /** The one mute token: the set's mute key toggles, whatever was requested. */
  const MUTE := "KEY_MUTE"

  /** The token for a VolumeSelector value: volume down when truthy, volume up otherwise. */
  function VolumeToken(selector: Value): (t: string)
    ensures t == "KEY_VOLDOWN" <==> Truthy(selector)
    ensures t == "KEY_VOLDOWN" || t == "KEY_VOLUP"
  {
    if Truthy(selector) then "KEY_VOLDOWN" else "KEY_VOLUP"
  }

  /**
   * The mute state of the set itself after it received `tokens`, starting from
   * `muted`: every mute token flips it, other tokens leave it.
   */
  function DeviceMuted(muted: bool, tokens: seq<Token>): bool
    decreases |tokens|
  {
    if tokens == [] then muted
    else DeviceMuted(if tokens[0] == Some(MUTE) then !muted else muted, tokens[1..])
  }

  lemma {:induction false} DeviceMutedAppend(muted: bool, a: seq<Token>, b: seq<Token>)
    ensures DeviceMuted(muted, a + b) == DeviceMuted(DeviceMuted(muted, a), b)
    decreases |a|
  {
    if a == [] {
      assert a + b == b;
    } else {
      assert (a + b)[1..] == a[1..] + b;
      DeviceMutedAppend(if a[0] == Some(MUTE) then !muted else muted, a[1..], b);
    }
  }

  /**
   * Toggle with optimistic echo: after a successful mute request for `value`,
   * the cached value is `value` but the set has flipped, so the two agree
   * exactly when the set was in the opposite state before.
   */
  lemma MuteEchoAgreesOnlyOnToggle(muted: bool, before: seq<Event>, value: bool)
    ensures var after := before + SetRecord(Some(MUTE), Sent);
            DeviceMuted(muted, SentTokens(after)) == !DeviceMuted(muted, SentTokens(before))
    ensures var after := before + SetRecord(Some(MUTE), Sent);
            (DeviceMuted(muted, SentTokens(after)) == value) <==> (DeviceMuted(muted, SentTokens(before)) != value)
  {
    CountsAppend(before, SetRecord(Some(MUTE), Sent));
    SetRecordOnce(Some(MUTE), Sent);
    DeviceMutedAppend(muted, SentTokens(before), [Some(MUTE)]);
    assert [Some(MUTE)][1..] == [];
  }

  class Speaker {
    /** The Mute characteristic's cached value. */
    var mute: Value
    /** The Volume characteristic's cached value. */
    var volume: Value
    /** Channel calls and callbacks, in the order the handlers made them. */
    var trace: seq<Event>
    /** Number of handler invocations so far. */
    ghost var calls: nat

    /** Every invocation made exactly one channel call and invoked its callback exactly once. */
    ghost predicate Valid()
      reads this
    {
      Commands(trace) == calls && Callbacks(trace) == calls
    }

    /** The cached values start as the host holds them. */
    constructor (mute0: Value, volume0: Value)
      ensures mute == mute0 && volume == volume0
      ensures trace == [] && calls == 0 && Valid()
    {
      mute := mute0;
      volume := volume0;
      trace := [];
      calls := 0;
    }

    /**
     * Mute set: always send the mute token; on success echo the requested
     * value into Mute, on failure leave it.
     */
    method SetMute(value: Value, reply: SendResult)
      requires Valid()
      modifies this`trace, this`calls, this`mute
      ensures Valid() && calls == old(calls) + 1
      ensures trace == old(trace) + SetRecord(Some(MUTE), reply)
      ensures mute == if reply.Sent? then value else old(mute)
    {
      var record := SetRecord(Some(MUTE), reply);
      SetRecordOnce(Some(MUTE), reply);
      CountsAppend(trace, record);
      calls := calls + 1;
      trace := trace + [Send(Some(MUTE))];
      match reply {
        case Sent =>
          mute := value;
          trace := trace + [Callback(None, None)];
        case SendFailed(error) =>
          trace := trace + [Callback(Some(error), None)];
      }
      assert trace == old(trace) + record;
    }

    /**
     * Volume set: send volume down for a truthy selector and volume up
     * otherwise; on success store the selector value itself into Volume, on
     * failure leave it.
     */
    method SetVolume(value: Value, reply: SendResult)
      requires Valid()
      modifies this`trace, this`calls, this`volume
      ensures Valid() && calls == old(calls) + 1
      ensures trace == old(trace) + SetRecord(Some(VolumeToken(value)), reply)
      ensures volume == if reply.Sent? then value else old(volume)
    {
      var record := SetRecord(Some(VolumeToken(value)), reply);
      SetRecordOnce(Some(VolumeToken(value)), reply);
      CountsAppend(trace, record);
      calls := calls + 1;
      trace := trace + [Send(Some(VolumeToken(value)))];
      match reply {
        case Sent =>
          volume := value;
          trace := trace + [Callback(None, None)];
        case SendFailed(error) =>
          trace := trace + [Callback(Some(error), None)];
      }
      assert trace == old(trace) + record;
    }
  }
}

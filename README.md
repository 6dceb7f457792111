# Samsung TV (pre-2014) accessory plugin — the device-control core in Dafny

This project models the part of the homebridge-samsungtv-2014 plugin that has
behaviour of its own:

- the **remote-key table builder** (`src/remoteKeys.ts`): eight builtin
  defaults (button name → vendor token), configured overrides accepted when
  their upper-cased name is in the host's `RemoteKey` vocabulary, and the
  re-keying of the result by the vocabulary's numeric codes. The builder
  writes the overrides into the module-level `DEFAULTS` object itself, so the
  model keeps that object as the state of a class (`KeyDefaults`) that every
  build updates;
- the **television accessory** (`src/tv.ts`): the power setter and getter and
  the remote-key setter, as the class `TV` with the cached power state
  `states.On`, the Active and ActiveIdentifier characteristic values and a
  trace of what each handler did;
- the **speaker accessory** (`src/speaker.ts`): the Mute and VolumeSelector
  setters, as the class `Speaker` with the cached Mute and Volume values.

The command channel (`src/remote.ts`, over the `samsung-remote` library) is
replaced by its outcome: each handler receives the answer its one channel call
got (`Sent` / `SendFailed(error)` for `sendCommand`, `Alive(b)` /
`ProbeFailed(error)` for `isAlive`). Every handler appends to a trace the
events it causes: `Send(token)`, `Probe`, and `Callback(error, value)` for the
host's completion callback. Each class keeps the invariant that every
invocation so far made exactly one channel call and one callback.

Modules: `Wrappers` (Option), `Host` (characteristic values and JavaScript
truthiness), `Channel` (tokens, channel outcomes, trace events and counts),
`RemoteKeys`, `Tv`, `Speaker`.

Behaviour of the code worth knowing:

- A button code with no table entry is sent as the token `undefined`; no
  "unknown button" error is raised (`Tv.RemoteToken`, `Tv.UnknownCodeSendsUndefined`).
- The power getter answers with `ActiveIdentifier.value || false` (1 after
  construction), not with the cached power state, so a power-off followed by a
  query still answers 1 (`Tv.PowerOffThenQuery`).
- The key table is not copied per television: overrides accepted while
  building one television's table stay in the defaults for every later one
  (`RemoteKeys.OverridePersists`).
- `states.On` receives the requested value unconverted (the `as boolean` is a
  type assertion only); HomeKit writes Active as the number 0 or 1.
- The volume setter stores the selector value itself (0 or 1) into Volume.

## Model

| member | source | states |
|---|---|---|
| `RemoteKeys.KeyDefaults.constructor` | src/remoteKeys.ts:3-12 | the shared table starts as the eight defaults, in declaration order |
| `RemoteKeys.DefaultsDistinct` | src/remoteKeys.ts:3-12 | the eight default names are pairwise different |
| `RemoteKeys.UpperMatchesIgnoringCase` | src/remoteKeys.ts:19 | two config names upper-case to the same name exactly when they are equal up to ASCII letter case, so overrides match case-insensitively |
| `RemoteKeys.PutGet` | src/remoteKeys.ts:23 | writing `keys[key] = value` makes `key` read `value` and leaves every other name's value unchanged |
| `RemoteKeys.PutShape` | src/remoteKeys.ts:23 | the write adds exactly the written name; an existing name keeps its position, a new one is appended |
| `RemoteKeys.PutDistinct` | src/remoteKeys.ts:23 | the write never creates a second property of the same name |
| `RemoteKeys.OverriddenGet` | src/remoteKeys.ts:18-24 | after the merge a name reads the value of the last config entry that upper-cases to it when the vocabulary defines it, and its previous value otherwise (unknown names ignored, last one wins, others untouched) |
| `RemoteKeys.OverriddenKeys` | src/remoteKeys.ts:18-24 | the merged table's names are the old names plus the accepted upper-cased config names, nothing else |
| `RemoteKeys.OverriddenDistinct` | src/remoteKeys.ts:18-24 | the merge keeps property names unique |
| `RemoteKeys.OverriddenAppend` | src/remoteKeys.ts:15-24 | two builds over the shared table apply their overrides as one build applying both configurations in sequence |
| `RemoteKeys.OverridePersists` | src/remoteKeys.ts:15-24 | an override accepted in one build is still in the output of a later build whose configuration does not name that button |
| `RemoteKeys.ByCodeKeys` | src/remoteKeys.ts:27-29 | the output's properties are exactly the codes (or "undefined") of the table's names |
| `RemoteKeys.ByCodeAt` | src/remoteKeys.ts:27-29 | with an injective vocabulary, each vocabulary name's code maps to that name's token |
| `RemoteKeys.Rekey` | src/remoteKeys.ts:16-29 | the second loop produces the table re-keyed by code (`ByCode`) |
| `RemoteKeys.KeyDefaults.Build` | src/remoteKeys.ts:14-32 | the shared table becomes the merge of its old value with the configuration, and the result is that table re-keyed by code |
| `RemoteKeys.DefaultsOnly` | src/remoteKeys.ts:3-29 | with no overrides the output maps exactly the codes of the eight default names, each to its default token |
| `RemoteKeys.BuiltReads` | src/remoteKeys.ts:14-31 | a vocabulary button has a code entry in the output exactly when the merged table names it, and that entry is the merged table's token |
| `RemoteKeys.SelectOverride` | src/remoteKeys.ts:3-31 | `{ select: "KEY_CONFIRM" }` makes SELECT send KEY_CONFIRM while ARROW_UP keeps KEY_UP |
| `Channel.ErrorOf` | src/tv.ts:118-120 | a set handler's callback gets an error exactly when the send failed, and that error |
| `Channel.SetRecordOnce` | src/speaker.ts:36-56 | a set handler's record holds one command, the given token, and one callback |
| `Tv.TV.constructor` | src/tv.ts:20-52 | the key table is built from the shared defaults (which the build updates); power starts off and ActiveIdentifier at 1 |
| `Tv.PowerToken` | src/tv.ts:126 | the power token is KEY_POWERON exactly for a truthy request, KEY_POWEROFF otherwise |
| `Tv.TV.SetOn` | src/tv.ts:124-132 | one send of the power token, one callback carrying the send's error if any; on success `states.On` becomes the request, on failure it is unchanged |
| `Tv.RemoteToken` | src/tv.ts:117 | the token sent is defined exactly when the table has an entry for the code |
| `Tv.RemoteTokenResolves` | src/tv.ts:115-117 | for a vocabulary button, the token sent is the merged table's token for it, or undefined when the merged table lacks it |
| `Tv.UnknownCodeSendsUndefined` | src/tv.ts:117 | a code no vocabulary name has is sent as undefined, without an error |
| `Tv.TV.SetRemote` | src/tv.ts:115-122 | one send of the table's token, one callback with the send's error if any; power state and characteristics unchanged |
| `Tv.ActiveAnswer` | src/tv.ts:148 | `value \|\| false`: the getter answers ActiveIdentifier itself when it is truthy and `false` for every falsy value, so the answer has ActiveIdentifier's truthiness |
| `Tv.ProbedOn` | src/tv.ts:149-156 | the probe leaves power on exactly when it answered alive |
| `Tv.TV.GetOn` | src/tv.ts:147-161 | the callback comes first, with ActiveIdentifier's answer, then one probe; `states.On` and Active both become the probe's verdict |
| `Tv.PowerOffThenQuery` | src/tv.ts:124-156 | after a power-off the channel accepted, a power query still answers 1 (ActiveIdentifier), and a not-alive probe then leaves the cached power state false |
| `Host.Truthy` | src/tv.ts:126 | JavaScript truthiness: a characteristic value is falsy exactly when it is `false` or 0; used for every token choice and for `\|\| false` |
| `Speaker.VolumeToken` | src/speaker.ts:48 | KEY_VOLDOWN exactly for a truthy selector, otherwise KEY_VOLUP, no other token |
| `Speaker.Speaker.constructor` | src/speaker.ts:7-30 | the cached Mute and Volume values start as the host holds them |
| `Speaker.Speaker.SetMute` | src/speaker.ts:36-45 | one send of KEY_MUTE whatever was requested, one callback; Mute becomes the request on success and is unchanged on failure |
| `Speaker.MuteEchoAgreesOnlyOnToggle` | src/speaker.ts:36-41 | after a successful mute request the set has flipped while the cache shows the request, so they agree only when the set was in the other state before |
| `Speaker.Speaker.SetVolume` | src/speaker.ts:47-56 | one send of the volume token, one callback; Volume becomes the selector value on success and is unchanged on failure |

## Left out

- src/remote.ts is not part of this model: the network protocol of the `samsung-remote` library is unseen. The channel is reduced to its outcomes. Its `isAlive` resolves `!!alive === false`, i.e. true when the library's callback argument is falsy; its try/catch catches only synchronous throws, so a library that never calls back leaves the probe, and the getter's state update, pending forever. Neither is modelled.
- src/samsungTVHomebridgePlatform.ts, src/index.ts, src/settings.ts, src/input.ts: registration, accessory caching, UUIDs and service linking are host-framework glue; the input source is never instantiated.
- The TV constructor's characteristic wiring, information service and empty `setInterval`, and the speaker constructor's Active and VolumeControlType settings: host wiring with no behaviour here.
- Logging, and the promise machinery beyond a settled outcome.
- Concurrency: interleaving of handlers awaiting the channel on the single event loop is not modelled; each handler runs to completion.
- A host callback that throws is not modelled; host callbacks are assumed to return normally. If one threw: in setRemote, setMute and setVolume the `catch` would call the callback a second time, with the thrown error; in setOn it would also do so, and the success path's `this.states.On = on` after `callback()` would be skipped, leaving the cached power state unchanged; in getOn the callback is outside the `try`, so getOn would end before the probe, with no second callback and no update of `states.On` or Active.
- RemoteKeys.UpperMatchesIgnoringCase: upper-casing is modelled for ASCII letters only; JavaScript's full Unicode `toUpperCase` (e.g. a long s upper-casing to S) is not.
- The order in which `for…in` visits the configured names is taken as given (the configuration is a sequence of entries); JavaScript's rule that integer-like names come first is not modelled. A missing `config.keys` is the empty sequence.
- Characteristic values are booleans and integers; strings, fractions and NaN are not modelled. The remote-key handler takes an integer code.
- Writes by the host to ActiveIdentifier are not modelled; no handler of this plugin changes it.

/**
 * Values the accessory host hands to, and stores for, characteristic handlers.
 * A HomeKit characteristic value reaching this plugin is a boolean or an integer
 * number (Active, RemoteKey, VolumeSelector and ActiveIdentifier are integer
 * formats, Mute is a boolean).
 */
module Host {

  datatype Value = Bool(b: bool) | Num(n: int)

  /** JavaScript truthiness of a characteristic value. */
  predicate Truthy(v: Value)
    ensures !Truthy(v) <==> v == Bool(false) || v == Num(0)
  {
    match v
    case Bool(b) => b
    case Num(n) => n != 0
  }
}

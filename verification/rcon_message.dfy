/** The wire values of the RCON packet type field. The protocol reuses the
    value 2 for a client's command request and for the server's answer to
    an authentication request. */
module MessageType {
  import opened Numbers

  datatype Kind = Response | Unnamed | Command | AuthResponse | Authenticate

  /** The `int` each enum member stands for on the wire. */
  function WireValue(k: Kind): (v: Int32)
    ensures 0 <= v <= 3
  {
    match k
    case Response => 0
    case Unnamed => 1
    case Command => 2
    case AuthResponse => 2
    case Authenticate => 3
  }

  /** The enum members a wire value can be read back as; a value outside
      0..3 names none of them but is still a legal `MessageType`. */
  function NamesOf(v: int): (r: set<Kind>)
    ensures forall k :: k in r <==> WireValue(k) == v
  {
    if v == 0 then {Response}
    else if v == 1 then {Unnamed}
    else if v == 2 then {Command, AuthResponse}
    else if v == 3 then {Authenticate}
    else {}
  }

  /** A decoded type field of 2 cannot tell a command from an
      authentication response; every other pair of members is told apart. */
  lemma WireValueCollision(a: Kind, b: Kind)
    ensures WireValue(a) == WireValue(b) <==> a == b || {a, b} == {Command, AuthResponse}
  {
  }
}

/** One RCON packet as an immutable value. The declared length, the id and
    the type are kept exactly as given: nothing ties `length` to the body,
    and `msgType` may be any `int`, named by the enum or not. */
module Message {
  import opened Numbers

  datatype Message = Message(length: Int32, id: Int32, msgType: Int32, body: string)

  /** `default(Message)`: all numbers zero. C#'s default body is null; the
      model uses the empty string. */
  const DefaultMessage: Message := Message(0, 0, 0, "")
}

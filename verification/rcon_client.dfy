/** The pure slice of the RCON client: how a request packet is built, the
    id counter, the not-connected guard, the size of the response buffer
    and the rule that a response is valid when it carries the request's
    id. The socket is replaced by what it reports at the time of a call:
    whether the stream is writable, whether the client is connected, and
    the bytes a read would deliver. */
module RconClient {
  import opened Wrappers
  import opened Numbers
  import opened Message
  import MessageType
  import Encoder
  import Utf8

  /** 4096 body bytes plus 14 bytes of framing. */
  const MaxMessageSize: int := 4110

  datatype Event = Connected | Disconnected

  /** The client object: the last id handed out, whether a network stream
      exists (it is null until the first connect), the events raised so far
      and the packets written to the stream. */
  datatype Client = Client(lastId: Int32, hasStream: bool, events: seq<Event>, written: seq<seq<Byte>>)

  /** A freshly constructed client. */
  const NewClient: Client := Client(0, false, [], [])

  /** The socket's answers at the time of a send. */
  datatype Link = Link(canWrite: bool, connected: bool, incoming: seq<Byte>)

  /** Exceptions a call lets escape: the password of an authentication is
      null (reading its length throws before an id is taken), the stream is
      still null, or the response was too short for `BitConverter` to
      read. */
  datatype SendError = NullPassword | StreamIsNull | ResponseTooShort(size: nat)

  /** `(IsValid, Response)`. */
  datatype Reply = Reply(isValid: bool, response: Message)

  datatype Outcome = Outcome(client: Client, result: Result<Reply, SendError>)

  /** `Interlocked.Increment`: the next id, wrapping from `int.MaxValue` to
      `int.MinValue`. */
  function NextId(lastId: Int32): (r: Int32)
    ensures lastId < MaxInt32 ==> r == lastId + 1 && r > lastId
    ensures lastId == MaxInt32 ==> r == MinInt32
  {
    Wrap32(lastId + 1)
  }

  /** A request packet: declared length body + 10 (as a C# `int` sum), the
      given id and type, the text as body. */
  function Request(kind: MessageType.Kind, id: Int32, text: string): (m: Message)
    ensures m.id == id && m.body == text && m.msgType == MessageType.WireValue(kind)
    ensures |text| + Encoder.HeaderLength <= MaxInt32 ==> m.length == |text| + Encoder.HeaderLength
    ensures |text| + Encoder.HeaderLength <= MaxInt32 ==> |Encoder.EncodeMessage(m)| == m.length + Encoder.LengthPrefixSize
  {
    Message(Wrap32(|text| + Encoder.HeaderLength), id, MessageType.WireValue(kind), text)
  }

  /** `Dispose`: always raises Disconnected. Closing the stream is not
      modelled. */
  function Dispose(c: Client): (r: Client)
    ensures r.events == c.events + [Disconnected]
    ensures r.lastId == c.lastId && r.written == c.written
  {
    c.(events := c.events + [Disconnected])
  }

  /** `DisconnectAsync`: whatever the flush and close do (they may throw,
      or meet a null stream), the exception is swallowed and `Dispose` runs,
      so the client always ends with one more Disconnected event. */
  function Disconnect(c: Client): (r: Client)
    ensures r.events == c.events + [Disconnected]
    ensures r.lastId == c.lastId && r.hasStream == c.hasStream && r.written == c.written
  {
    Dispose(c)
  }

  /** `ConnectAsync`: on success the stream exists and Connected is raised;
      a failed connect throws and raises nothing. */
  function Connect(c: Client, succeeds: bool): (r: Result<Client, ()>)
    ensures r.Success? <==> succeeds
    ensures r.Success? ==> r.value.hasStream && r.value.events == c.events + [Connected]
  {
    if succeeds then Success(c.(hasStream := true, events := c.events + [Connected]))
    else Failure(())
  }

  /** The bytes `ReadAsync` leaves in the 4110-byte buffer, which is then
      cut to the number of bytes read. */
  function ReceivedBytes(incoming: seq<Byte>): (r: seq<Byte>)
    ensures |r| <= MaxMessageSize && |r| <= |incoming|
    ensures r == incoming[..|r|]
    ensures |incoming| <= MaxMessageSize ==> r == incoming
  {
    if |incoming| <= MaxMessageSize then incoming else incoming[..MaxMessageSize]
  }

  /** `SendMessageAsync`. When the stream is not writable or the client is
      not connected, Disconnected is raised, then `Dispose` raises it a
      second time, and `(false, default)` is returned with nothing written.
      Otherwise the packet is written, the response read and decoded, and
      the reply is valid exactly when the response id equals the request
      id. */
  function SendMessage(c: Client, req: Message, link: Link): (r: Outcome)
    ensures r.client.lastId == c.lastId
    ensures !c.hasStream ==> r == Outcome(c, Failure(StreamIsNull))
    ensures c.hasStream && !(link.canWrite && link.connected) ==>
              r.client.events == c.events + [Disconnected, Disconnected] &&
              r.client.written == c.written &&
              r.result == Success(Reply(false, DefaultMessage))
    ensures c.hasStream && link.canWrite && link.connected ==>
              r.client.events == c.events &&
              r.client.written == c.written + [Encoder.EncodeMessage(req)]
    ensures r.result.Success? && r.client.written != c.written ==>
              (r.result.value.isValid <==> r.result.value.response.id == req.id)
    ensures r.result.Success? && r.client.written != c.written ==>
              Encoder.DecodeMessage(ReceivedBytes(link.incoming)) == Success(r.result.value.response)
    ensures c.hasStream && link.canWrite && link.connected ==>
              (r.result.Success? <==> |ReceivedBytes(link.incoming)| >= Encoder.BodyOffset)
    ensures c.hasStream && r.result.Failure? && r.client.written != c.written ==>
              r.result.error == ResponseTooShort(|ReceivedBytes(link.incoming)|)
  {
    if !c.hasStream then Outcome(c, Failure(StreamIsNull))
    else if !link.canWrite || !link.connected then
      var c' := Dispose(c.(events := c.events + [Disconnected]));
      Outcome(c', Success(Reply(false, DefaultMessage)))
    else
      var c' := c.(written := c.written + [Encoder.EncodeMessage(req)]);
      var bytes := ReceivedBytes(link.incoming);
      match Encoder.DecodeMessage(bytes)
      case Failure(_) => Outcome(c', Failure(ResponseTooShort(|bytes|)))
      case Success(resp) => Outcome(c', Success(Reply(req.id == resp.id, resp)))
  }

  /** The write path's partner: when the server answers with a packet
      encoded the same way, ASCII body and within the read buffer, the
      reply carries exactly that packet, and it is valid exactly when the
      server echoed the request id. */
  lemma EchoedReply(c: Client, req: Message, resp: Message, link: Link)
    requires c.hasStream && link.canWrite && link.connected
    requires Utf8.IsAscii(resp.body)
    requires link.incoming == Encoder.EncodeMessage(resp)
    requires |link.incoming| <= MaxMessageSize
    ensures SendMessage(c, req, link).result == Success(Reply(resp.id == req.id, resp))
  {
    Encoder.RoundTrip(resp);
  }

  /** `AuthenticateAsync`: a null password throws when its length is read,
      before the counter moves and with nothing written. Otherwise the call
      takes the next id and sends an Authenticate packet whose body is the
      password. */
  function Authenticate(c: Client, password: Option<string>, link: Link): (r: Outcome)
    ensures password.None? ==> r == Outcome(c, Failure(NullPassword))
    ensures password.Some? ==> r.client.lastId == NextId(c.lastId)
    ensures password.Some? ==>
              r.client.written == c.written ||
              r.client.written == c.written + [Encoder.EncodeMessage(Request(MessageType.Authenticate, NextId(c.lastId), password.value))]
  {
    match password
    case None => Outcome(c, Failure(NullPassword))
    case Some(text) =>
      var id := NextId(c.lastId);
      SendMessage(c.(lastId := id), Request(MessageType.Authenticate, id, text), link)
  }

  /** `SendCommandAsync`: takes the next id and sends a Command packet
      whose body is the command text. */
  function SendCommand(c: Client, command: string, link: Link): (r: Outcome)
    ensures r.client.lastId == NextId(c.lastId)
    ensures r.client.written == c.written ||
            r.client.written == c.written + [Encoder.EncodeMessage(Request(MessageType.Command, NextId(c.lastId), command))]
  {
    var id := NextId(c.lastId);
    SendMessage(c.(lastId := id), Request(MessageType.Command, id, command), link)
  }

  // ---------------------------------------------------------------------
  // Sequences of calls

  datatype Call = AuthCall(password: Option<string>) | CommandCall(command: string)

  /** Every call takes an id except an authentication with a null
      password. */
  predicate TakesId(call: Call) {
    !(call.AuthCall? && call.password.None?)
  }

  function Step(c: Client, call: Call, link: Link): Outcome {
    match call
    case AuthCall(p) => Authenticate(c, p, link)
    case CommandCall(t) => SendCommand(c, t, link)
  }

  /** A call that takes no id leaves the client as it was. */
  lemma NoIdNoChange(c: Client, call: Call, link: Link)
    ensures !TakesId(call) ==> Step(c, call, link).client == c
    ensures TakesId(call) ==> Step(c, call, link).client.lastId == NextId(c.lastId)
  {
  }

  /** The number of calls in a run that take an id. */
  function CountTaking(calls: seq<Call>): (n: nat)
    ensures n <= |calls|
    ensures (forall i :: 0 <= i < |calls| ==> TakesId(calls[i])) ==> n == |calls|
  {
    if calls == [] then 0
    else (if TakesId(calls[0]) then 1 else 0) + CountTaking(calls[1..])
  }

  /** The ids a run of calls takes, in call order. Every call takes one,
      whether or not its packet is written and whether or not the send
      throws, except an authentication with a null password, which throws
      before reaching the counter. */
  function IdsTaken(c: Client, calls: seq<Call>, links: seq<Link>): (ids: seq<Int32>)
    requires |links| == |calls|
    ensures |ids| == CountTaking(calls)
    ensures ids != [] ==> ids[0] == NextId(c.lastId)
    decreases |calls|
  {
    if calls == [] then []
    else
      var o := Step(c, calls[0], links[0]);
      NoIdNoChange(c, calls[0], links[0]);
      var rest := IdsTaken(o.client, calls[1..], links[1..]);
      if TakesId(calls[0]) then [o.client.lastId] + rest else rest
  }

  /** A null-password authentication leaves no trace in the ids. */
  lemma NullPasswordTakesNoId(c: Client, calls: seq<Call>, link: Link, links: seq<Link>)
    requires |links| == |calls|
    ensures IdsTaken(c, [AuthCall(None)] + calls, [link] + links) == IdsTaken(c, calls, links)
  {
    assert ([AuthCall(None)] + calls)[1..] == calls;
    assert ([link] + links)[1..] == links;
  }

  /** From a fresh client, the i-th id taken (counting from 0) is i + 1,
      so ids start at 1 and strictly increase, until `int.MaxValue` calls
      have been made. */
  lemma {:induction false} IdsCountFromOne(c: Client, calls: seq<Call>, links: seq<Link>)
    requires |links| == |calls|
    requires 0 <= c.lastId && c.lastId + |calls| <= MaxInt32
    ensures forall i :: 0 <= i < |IdsTaken(c, calls, links)| ==> IdsTaken(c, calls, links)[i] == c.lastId + i + 1
    decreases |calls|
  {
    if calls != [] {
      var o := Step(c, calls[0], links[0]);
      NoIdNoChange(c, calls[0], links[0]);
      IdsCountFromOne(o.client, calls[1..], links[1..]);
    }
  }

  /** Ids are strictly increasing from a fresh client. */
  lemma IdsStrictlyIncrease(calls: seq<Call>, links: seq<Link>)
    requires |links| == |calls| <= MaxInt32
    ensures forall i, j :: 0 <= i < j < |IdsTaken(NewClient, calls, links)| ==> IdsTaken(NewClient, calls, links)[i] < IdsTaken(NewClient, calls, links)[j]
    ensures IdsTaken(NewClient, calls, links) != [] ==> IdsTaken(NewClient, calls, links)[0] == 1
  {
    IdsCountFromOne(NewClient, calls, links);
  }

  /** The counter is a C# `int`: the call after id `int.MaxValue` takes
      `int.MinValue`. */
  lemma IdWrapsAround(c: Client, call: Call, link: Link)
    requires c.lastId == MaxInt32 && TakesId(call)
    ensures Step(c, call, link).client.lastId == MinInt32
  {
  }
}

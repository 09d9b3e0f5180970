/** The console page of the mobile app: a connection state machine with
    its derived texts, the command log, and the guards on sending,
    toggling, refreshing and disconnecting. The RCON client under it is
    replaced by what it reports: whether a call throws, and with which
    message. The client raises Connected and Disconnected, and the page
    moves to the matching state; these moves are written out where they
    happen. */
module RconPage {
  import opened Wrappers
  import opened Text
  import opened Numbers
  import opened ServerProfile
  import opened MinecraftExtensions
  import opened ColorCodes
  import PlayerCount
  import RconClient

  datatype State = DISCONNECTED | CONNECTING | CONNECTED

  /** `State.ToString()`. */
  function StateName(s: State): (r: string)
    ensures r != ""
  {
    match s
    case DISCONNECTED => "DISCONNECTED"
    case CONNECTING => "CONNECTING"
    case CONNECTED => "CONNECTED"
  }

  /** The status text names the state: different states show different
      texts. */
  lemma StateNameInjective(a: State, b: State)
    ensures StateName(a) == StateName(b) <==> a == b
  {
  }

  const UnknownPlayers: string := "Players: ?/?"
  const ConnectText: string := "Connect"
  const DisconnectText: string := "Disconnect"

  /** One line of the command log: its prefix and its colour-stripped
      text. The timestamp in front of each line is not modelled. */
  datatype LogLine = LogLine(prefix: string, text: string)

  /** The page's bindable state. `entry` is the command being typed; the
      source starts it as null, which every check treats like "". */
  datatype Page = Page(
    state: State,
    serverNameText: string,
    connectionStatusText: string,
    onlinePlayerText: string,
    toggleText: string,
    log: seq<LogLine>,
    entry: string,
    sendEnabled: bool)

  /** The page as constructed for a profile. */
  function NewPage(profile: ServerProfile): (p: Page)
    ensures p.state == DISCONNECTED && !p.sendEnabled && p.log == []
    ensures p.serverNameText == ServerUriText(profile)
    ensures p.connectionStatusText == StateName(DISCONNECTED)
    ensures p.onlinePlayerText == UnknownPlayers && p.toggleText == ConnectText
  {
    Page(DISCONNECTED, ServerUriText(profile), "DISCONNECTED", UnknownPlayers, ConnectText, [], "", false)
  }

  /** What the controls show agrees with the state: the status names it,
      the server name is the profile's address, a connected page can send
      and offers Disconnect, a disconnected one cannot send and offers
      Connect. While connecting the controls keep what they showed
      before. */
  predicate Consistent(p: Page, profile: ServerProfile) {
    && p.connectionStatusText == StateName(p.state)
    && p.serverNameText == ServerUriText(profile)
    && (p.state == CONNECTED ==> p.sendEnabled && p.toggleText == DisconnectText)
    && (p.state == DISCONNECTED ==> !p.sendEnabled && p.toggleText == ConnectText)
  }

  lemma NewPageConsistent(profile: ServerProfile)
    ensures Consistent(NewPage(profile), profile)
  {
  }

  /** `WriteToCommandLog`: blank text is dropped; anything else is logged
      with its colour codes removed. */
  function WriteLog(p: Page, prefix: string, text: string): (r: Page)
    ensures IsBlank(text) ==> r == p
    ensures !IsBlank(text) ==> |r.log| == |p.log| + 1 && r.log[|p.log|] == LogLine(prefix, RemoveColorCodes(text))
    ensures !IsBlank(text) ==> r.log[|p.log|].text == text || SectionSign in text
  {
    if IsBlank(text) then p else p.(log := p.log + [LogLine(prefix, RemoveColorCodes(text))])
  }

  /** Logging keeps everything logged so far, adds at most one line and
      changes nothing else on the page. */
  lemma WriteLogAppends(p: Page, prefix: string, text: string)
    ensures p.log <= WriteLog(p, prefix, text).log
    ensures |WriteLog(p, prefix, text).log| <= |p.log| + 1
    ensures WriteLog(p, prefix, text).(log := p.log) == p
  {
  }

  /** Text that starts with a visible character is logged as one line. */
  lemma LogsVisible(p: Page, prefix: string, text: string)
    requires |text| > 0 && !IsWhiteSpace(text[0])
    ensures WriteLog(p, prefix, text) == p.(log := p.log + [LogLine(prefix, RemoveColorCodes(text))])
  {
  }

  /** `UiStateChangeLogic`, run whenever the state is set: the status
      text names the new state; entering DISCONNECTED resets the server
      name and player count, logs "Disconnected", disables sending and
      offers Connect; entering CONNECTED logs "Connection established",
      enables sending and offers Disconnect. */
  function SetState(p: Page, s: State, profile: ServerProfile): (r: Page)
    ensures r.state == s && r.connectionStatusText == StateName(s)
    ensures s == DISCONNECTED ==>
              && r.serverNameText == ServerUriText(profile)
              && r.onlinePlayerText == UnknownPlayers
              && !r.sendEnabled && r.toggleText == ConnectText
              && r.log == p.log + [LogLine("Info", "Disconnected")]
    ensures s == CONNECTED ==>
              && r.sendEnabled && r.toggleText == DisconnectText
              && r.onlinePlayerText == p.onlinePlayerText
              && r.log == p.log + [LogLine("Info", "Connection established")]
    ensures s == CONNECTED ==>
              r == p.(state := s, connectionStatusText := StateName(s), sendEnabled := true, toggleText := DisconnectText,
                      log := p.log + [LogLine("Info", "Connection established")])
    ensures s == DISCONNECTED ==>
              r == p.(state := s, connectionStatusText := StateName(s), serverNameText := ServerUriText(profile),
                      onlinePlayerText := UnknownPlayers, sendEnabled := false, toggleText := ConnectText,
                      log := p.log + [LogLine("Info", "Disconnected")])
    ensures s == CONNECTING ==> r == p.(state := s, connectionStatusText := StateName(s))
    ensures r.entry == p.entry
    ensures Consistent(p, profile) ==> Consistent(r, profile)
  {
    var q := p.(state := s, connectionStatusText := StateName(s));
    match s
    case DISCONNECTED =>
      var q1 := q.(serverNameText := ServerUriText(profile), onlinePlayerText := UnknownPlayers);
      NoColourCodes("Disconnected");
      WriteLog(q1, "Info", "Disconnected").(sendEnabled := false, toggleText := ConnectText)
    case CONNECTED =>
      NoColourCodes("Connection established");
      WriteLog(q, "Info", "Connection established").(sendEnabled := true, toggleText := DisconnectText)
    case CONNECTING => q
  }

  /** The page's own fixed log texts have no '§' and a visible character,
      so they are logged as written. */
  lemma NoColourCodes(text: string)
    requires text == "Disconnected" || text == "Connection established" || text == "Authenticated successfully"
             || text == "Refreshed server info"
    ensures !IsBlank(text) && RemoveColorCodes(text) == text
  {
    assert !IsWhiteSpace(text[0]);
    assert SectionSign !in text by {
      if text == "Disconnected" {
      } else if text == "Connection established" {
      } else if text == "Authenticated successfully" {
      } else {
      }
    }
  }

  /** `DisconnectAsync`: only a connected page disconnects; the client
      then raises Disconnected. */
  function Disconnect(p: Page, profile: ServerProfile): (r: Page)
    ensures p.state != CONNECTED ==> r == p
    ensures p.state == CONNECTED ==> r == SetState(p, DISCONNECTED, profile)
    ensures p.log <= r.log
    ensures Consistent(p, profile) ==> Consistent(r, profile)
  {
    if p.state != CONNECTED then p else SetState(p, DISCONNECTED, profile)
  }

  /** How an attempt to connect ends: the host name does not resolve, the
      client fails to connect to the resolved address, or it connects. */
  datatype ConnectOutcome =
    | ResolveFails(message: string)
    | ConnectFails(address: string, message: string)
    | Connects(address: string)

  /** The line logged once the address is known. It names the Minecraft
      port, although the client connects to the RCON port. */
  function EstablishingText(address: string, profile: ServerProfile): string {
    "Establishing connection to " + address + ":" + NatToString(profile.minecraftPort)
  }

  /** `ConnectAsync`: the page enters CONNECTING; once the address is
      known it logs it, then the client either connects, and the page
      becomes CONNECTED, or something throws: the page's own disconnect,
      a no-op while connecting, runs, the error is logged and the page
      goes back to DISCONNECTED. */
  function Connect(p: Page, profile: ServerProfile, outcome: ConnectOutcome): (r: Page)
    ensures outcome.Connects? ==> r.state == CONNECTED
    ensures !outcome.Connects? ==> r.state == DISCONNECTED
    ensures !outcome.Connects? ==> |r.log| > 0 && r.log[|r.log| - 1] == LogLine("Info", "Disconnected")
    ensures outcome.ResolveFails? ==>
              r.log == p.log + [FailedLine(outcome.message), LogLine("Info", "Disconnected")]
    ensures outcome.ConnectFails? ==>
              r.log == p.log + [LogLine("Info", RemoveColorCodes(EstablishingText(outcome.address, profile))),
                                FailedLine(outcome.message), LogLine("Info", "Disconnected")]
    ensures outcome.Connects? ==>
              r.log == p.log + [LogLine("Info", RemoveColorCodes(EstablishingText(outcome.address, profile))),
                                LogLine("Info", "Connection established")]
    ensures p.log <= r.log
    ensures r.entry == p.entry
    ensures Consistent(p, profile) ==> Consistent(r, profile)
  {
    var q := SetState(p, CONNECTING, profile);
    match outcome
    case ResolveFails(message) =>
      Fail(q, profile, message)
    case ConnectFails(address, message) =>
      var text := EstablishingText(address, profile);
      LogsVisible(q, "Info", text);
      var established := LogLine("Info", RemoveColorCodes(text));
      AppendThree(p.log, established, FailedLine(message), LogLine("Info", "Disconnected"));
      Fail(WriteLog(q, "Info", text), profile, message)
    case Connects(address) =>
      var text := EstablishingText(address, profile);
      LogsVisible(q, "Info", text);
      NoColourCodes("Connection established");
      AppendTwo(p.log, LogLine("Info", RemoveColorCodes(text)), LogLine("Info", "Connection established"));
      SetState(WriteLog(q, "Info", text), CONNECTED, profile)
  }

  /** The error line of a failed connect. */
  function FailedLine(message: string): LogLine {
    LogLine("Error", RemoveColorCodes("Failed to connect! " + message))
  }

  /** The failure path of `ConnectAsync`, entered while CONNECTING. */
  function Fail(q: Page, profile: ServerProfile, message: string): (r: Page)
    requires q.state == CONNECTING
    ensures r.state == DISCONNECTED
    ensures q.log <= r.log && |r.log| > 0 && r.log[|r.log| - 1] == LogLine("Info", "Disconnected")
    ensures r.log == q.log + [FailedLine(message), LogLine("Info", "Disconnected")]
    ensures r.entry == q.entry
    ensures Consistent(q, profile) ==> Consistent(r, profile)
  {
    LogsVisible(q, "Error", "Failed to connect! " + message);
    AppendTwo(q.log, FailedLine(message), LogLine("Info", "Disconnected"));
    var q1 := Disconnect(q, profile);
    SetState(WriteLog(q1, "Error", "Failed to connect! " + message), DISCONNECTED, profile)
  }

  /** The toggle button: disconnects a connected page, connects a
      disconnected one, and does nothing while connecting. */
  function Toggle(p: Page, profile: ServerProfile, outcome: ConnectOutcome): (r: Page)
    ensures p.state == CONNECTING ==> r == p
    ensures p.state == CONNECTED ==> r.state == DISCONNECTED
    ensures p.state == DISCONNECTED ==> r.state == (if outcome.Connects? then CONNECTED else DISCONNECTED)
    ensures p.log <= r.log
    ensures Consistent(p, profile) ==> Consistent(r, profile)
  {
    match p.state
    case CONNECTED => Disconnect(p, profile)
    case DISCONNECTED => Connect(p, profile, outcome)
    case CONNECTING => p
  }

  /** How a call into the client ends, as the page sees it: it returns
      normally, it throws with a message, or the client's not-connected
      guard fires. The guard raises Disconnected twice, once itself and once
      through `Dispose`, and then returns an invalid reply without
      throwing. */
  datatype CallOutcome = Ok | Throws(message: string) | LinkDown

  /** What a client call's outcome means to the page; `message` stands for
      the text of the exception, which the model does not produce. */
  function Classify(before: RconClient.Client, o: RconClient.Outcome, message: string): CallOutcome {
    if o.result.Failure? then Throws(message)
    else if o.client.events == before.events + [RconClient.Disconnected, RconClient.Disconnected] then LinkDown
    else Ok
  }

  /** A command throws while the client has no stream, and finds the link
      down exactly when the stream exists but cannot write or the socket is
      not connected. */
  lemma CommandOutcomes(c: RconClient.Client, command: string, link: RconClient.Link, message: string)
    ensures !c.hasStream ==> Classify(c, RconClient.SendCommand(c, command, link), message) == Throws(message)
    ensures Classify(c, RconClient.SendCommand(c, command, link), message) == LinkDown
            <==> c.hasStream && !(link.canWrite && link.connected)
  {
  }

  /** Authenticating with a null password, which a profile saved with a
      blank password carries, always throws; otherwise it behaves like a
      command. */
  lemma AuthenticateOutcomes(c: RconClient.Client, password: Option<string>, link: RconClient.Link, message: string)
    ensures password.None? || !c.hasStream ==> Classify(c, RconClient.Authenticate(c, password, link), message) == Throws(message)
    ensures Classify(c, RconClient.Authenticate(c, password, link), message) == LinkDown
            <==> password.Some? && c.hasStream && !(link.canWrite && link.connected)
  {
  }

  /** The guard's two Disconnected events, each of which sets the page to
      DISCONNECTED. Whatever the page was, it ends disconnected and
      consistent, with two "Disconnected" lines logged. */
  function LinkDrops(p: Page, profile: ServerProfile): (r: Page)
    ensures r.state == DISCONNECTED && r.entry == p.entry
    ensures r.log == p.log + [LogLine("Info", "Disconnected"), LogLine("Info", "Disconnected")]
    ensures r.onlinePlayerText == UnknownPlayers && !r.sendEnabled && r.toggleText == ConnectText
    ensures Consistent(r, profile)
  {
    SetState(SetState(p, DISCONNECTED, profile), DISCONNECTED, profile)
  }

  /** Apart from the log, the second event changes nothing the first did
      not. */
  lemma LinkDropsOnce(p: Page, profile: ServerProfile)
    ensures LinkDrops(p, profile).(log := p.log) == SetState(p, DISCONNECTED, profile).(log := p.log)
  {
  }

  /** Appending one line, then another, appends the two in order. */
  lemma AppendTwo(log: seq<LogLine>, a: LogLine, b: LogLine)
    ensures log + [a] + [b] == log + [a, b]
  {
  }

  /** Appending one line, then two, appends the three in order. */
  lemma AppendThree(log: seq<LogLine>, a: LogLine, b: LogLine, c: LogLine)
    ensures log + [a] + [b, c] == log + [a, b, c]
    ensures log + [a, b] + [c] == log + [a, b, c]
  {
  }

  /** Whether the send button acts: the page is connected and the entry
      has a visible character. */
  predicate SendActs(p: Page) {
    p.state == CONNECTED && !IsBlank(p.entry)
  }

  /** The send button, with `outcome` how the client's send ends. Nothing
      happens unless the page is connected and the entry has a visible
      character. Otherwise the entry is logged as the client's line. A send
      that returns clears the entry; when it returned because the link was
      down, the page has meanwhile become DISCONNECTED. A send that throws
      keeps the entry and logs the error. */
  function Send(p: Page, profile: ServerProfile, outcome: CallOutcome): (r: Page)
    ensures !SendActs(p) ==> r == p
    ensures SendActs(p) ==>
              && |r.log| > |p.log|
              && r.log[|p.log|] == LogLine("Client", RemoveColorCodes(p.entry))
              && (r.entry == "" <==> !outcome.Throws?)
              && (outcome.Throws? ==> r.entry == p.entry)
    ensures SendActs(p) && outcome.LinkDown? ==>
              r.log == p.log + [LogLine("Client", RemoveColorCodes(p.entry)),
                                LogLine("Info", "Disconnected"), LogLine("Info", "Disconnected")]
    ensures r.state == (if SendActs(p) && outcome.LinkDown? then DISCONNECTED else p.state)
    ensures !(SendActs(p) && outcome.LinkDown?) ==> r.(log := p.log, entry := p.entry) == p
    ensures p.log <= r.log
    ensures Consistent(p, profile) ==> Consistent(r, profile)
  {
    if !SendActs(p) then p
    else
      var q := WriteLog(p, "Client", p.entry);
      match outcome
      case Ok => q.(entry := "")
      case LinkDown =>
        AppendThree(p.log, LogLine("Client", RemoveColorCodes(p.entry)), LogLine("Info", "Disconnected"), LogLine("Info", "Disconnected"));
        LinkDrops(q, profile).(entry := "")
      case Throws(message) =>
        assert !IsBlank(p.entry) ==> p.entry != "";
        WriteLog(q, "Error", "Failed to send command! " + message)
  }

  /** `GetServerInfo`, with `list` how the `list` command ends: a page
      that is not connected sends nothing. Otherwise a returning command
      leaves the page as it was, or DISCONNECTED when the link was down,
      and a throwing one fails with its message. */
  function GetServerInfo(p: Page, profile: ServerProfile, list: CallOutcome): (r: Result<Page, string>)
    ensures p.state != CONNECTED ==> r == Success(p)
    ensures p.state == CONNECTED && list.Ok? ==> r == Success(p)
    ensures p.state == CONNECTED && list.LinkDown? ==> r == Success(LinkDrops(p, profile))
    ensures p.state == CONNECTED && list.Throws? ==> r == Failure(list.message)
  {
    if p.state != CONNECTED then Success(p)
    else
      match list
      case Ok => Success(p)
      case LinkDown => Success(LinkDrops(p, profile))
      case Throws(message) => Failure(message)
  }

  /** The refresh button, with `outcome` how the `list` command ends:
      nothing unless connected. When the command returns a line says so,
      even when it returned because the link was down and the page has
      become DISCONNECTED. When it throws the error is logged and the page
      reconnects. */
  function Refresh(p: Page, profile: ServerProfile, outcome: CallOutcome, reconnect: ConnectOutcome): (r: Page)
    ensures p.state != CONNECTED ==> r == p
    ensures p.state == CONNECTED && outcome.Ok? ==>
              r == p.(log := p.log + [LogLine("Info", "Refreshed server info")])
    ensures p.state == CONNECTED && outcome.LinkDown? ==>
              && r.state == DISCONNECTED
              && r.log == p.log + [LogLine("Info", "Disconnected"), LogLine("Info", "Disconnected"),
                                   LogLine("Info", "Refreshed server info")]
              && r.onlinePlayerText == UnknownPlayers
    ensures p.state == CONNECTED && outcome.Throws? ==>
              && r.state == (if reconnect.Connects? then CONNECTED else DISCONNECTED)
              && |r.log| > |p.log|
              && r.log[|p.log|] == LogLine("Error", RemoveColorCodes("Failed to refresh server info! " + outcome.message))
    ensures p.log <= r.log
    ensures Consistent(p, profile) ==> Consistent(r, profile)
  {
    if p.state != CONNECTED then p
    else
      match GetServerInfo(p, profile, outcome)
      case Success(q) =>
        NoColourCodes("Refreshed server info");
        AppendThree(p.log, LogLine("Info", "Disconnected"), LogLine("Info", "Disconnected"), LogLine("Info", "Refreshed server info"));
        WriteLog(q, "Info", "Refreshed server info")
      case Failure(message) => RefreshFailed(p, profile, message, reconnect)
  }

  /** The refresh button's `catch`: the error is logged, then the page
      reconnects. */
  function RefreshFailed(p: Page, profile: ServerProfile, message: string, reconnect: ConnectOutcome): (r: Page)
    ensures r.state == (if reconnect.Connects? then CONNECTED else DISCONNECTED)
    ensures |r.log| > |p.log|
    ensures r.log[|p.log|] == LogLine("Error", RemoveColorCodes("Failed to refresh server info! " + message))
    ensures p.log <= r.log
    ensures Consistent(p, profile) ==> Consistent(r, profile)
  {
    var text := "Failed to refresh server info! " + message;
    assert text[0] == 'F';
    var q := WriteLog(p, "Error", text);
    assert q.log[|p.log|] == LogLine("Error", RemoveColorCodes(text));
    Connect(q, profile, reconnect)
  }

  const AuthenticatedLine: LogLine := LogLine("Info", "Authenticated successfully")

  /** The error line of `ConnectedLogic`'s `catch`, which also reports a
      failing `list` command as an authentication failure. */
  function AuthFailedLine(message: string): LogLine {
    LogLine("Error", RemoveColorCodes("Failed to authenticate! " + message))
  }

  /** The rest of `ConnectedLogic` once authenticating has returned:
      success is logged, then `GetServerInfo` runs, and an exception it
      throws is logged as an authentication failure. A page that is no
      longer connected sends no `list`. */
  function Authenticated(p: Page, profile: ServerProfile, list: CallOutcome): (r: Page)
    ensures |r.log| > |p.log| && r.log[|p.log|] == AuthenticatedLine
    ensures p.state != CONNECTED || list.Ok? ==> r == p.(log := p.log + [AuthenticatedLine])
    ensures p.state == CONNECTED && list.LinkDown? ==>
              r.log == p.log + [AuthenticatedLine, LogLine("Info", "Disconnected"), LogLine("Info", "Disconnected")]
    ensures p.state == CONNECTED && list.Throws? ==>
              r.log == p.log + [AuthenticatedLine, AuthFailedLine(list.message)]
    ensures r.state == (if p.state == CONNECTED && list.LinkDown? then DISCONNECTED else p.state)
    ensures !(p.state == CONNECTED && list.LinkDown?) ==> r.(log := p.log) == p
    ensures p.state == CONNECTED && list.LinkDown? ==>
              r.(log := p.log) == SetState(p, DISCONNECTED, profile).(log := p.log)
  {
    NoColourCodes("Authenticated successfully");
    var q := WriteLog(p, "Info", "Authenticated successfully");
    match GetServerInfo(q, profile, list)
    case Success(q') =>
      AppendThree(p.log, AuthenticatedLine, LogLine("Info", "Disconnected"), LogLine("Info", "Disconnected"));
      LinkDropsOnce(q, profile);
      q'
    case Failure(message) =>
      LogsVisible(q, "Error", "Failed to authenticate! " + message);
      AppendTwo(p.log, AuthenticatedLine, AuthFailedLine(message));
      WriteLog(q, "Error", "Failed to authenticate! " + message)
  }

  /** Whether `ConnectedLogic` finds the link down: authenticating does,
      or it succeeds and the `list` command sent afterwards does. */
  predicate DropsLink(p: Page, auth: CallOutcome, list: CallOutcome) {
    p.state == CONNECTED && (auth.LinkDown? || (auth.Ok? && list.LinkDown?))
  }

  /** `ConnectedLogic`, run when the page becomes connected, with `auth`
      how authenticating ends and `list` how the `list` command sent
      afterwards ends. A throwing authentication logs its error. When
      authenticating finds the link down, the page is already DISCONNECTED
      when success is logged, so no `list` is sent. */
  function AfterConnected(p: Page, profile: ServerProfile, auth: CallOutcome, list: CallOutcome): (r: Page)
    ensures p.state != CONNECTED ==> r == p
    ensures p.state == CONNECTED && auth.Throws? ==>
              r == p.(log := p.log + [AuthFailedLine(auth.message)])
    ensures p.state == CONNECTED && auth.LinkDown? ==>
              r.log == p.log + [LogLine("Info", "Disconnected"), LogLine("Info", "Disconnected"), AuthenticatedLine]
    ensures p.state == CONNECTED && auth.Ok? ==>
              |r.log| > |p.log| && r.log[|p.log|] == AuthenticatedLine
    ensures p.state == CONNECTED && auth.Ok? && list.Ok? ==>
              r == p.(log := p.log + [AuthenticatedLine])
    ensures p.state == CONNECTED && auth.Ok? && list.LinkDown? ==>
              r.log == p.log + [AuthenticatedLine, LogLine("Info", "Disconnected"), LogLine("Info", "Disconnected")]
    ensures p.state == CONNECTED && auth.Ok? && list.Throws? ==>
              r.log == p.log + [AuthenticatedLine, AuthFailedLine(list.message)]
    ensures r.state == (if DropsLink(p, auth, list) then DISCONNECTED else p.state)
  {
    if p.state != CONNECTED then p
    else
      match auth
      case Throws(message) =>
        assert ("Failed to authenticate! " + message)[0] == 'F';
        WriteLog(p, "Error", "Failed to authenticate! " + message)
      case LinkDown =>
        AppendThree(p.log, LogLine("Info", "Disconnected"), LogLine("Info", "Disconnected"), AuthenticatedLine);
        Authenticated(LinkDrops(p, profile), profile, list)
      case Ok => Authenticated(p, profile, list)
  }

  /** `ConnectedLogic` only appends to the log, unless it finds the link
      down; then the rest of the page changes exactly as entering
      DISCONNECTED changes it. Either way the controls stay consistent. */
  lemma AfterConnectedAppends(p: Page, profile: ServerProfile, auth: CallOutcome, list: CallOutcome)
    ensures p.log <= AfterConnected(p, profile, auth, list).log
    ensures !DropsLink(p, auth, list) ==> AfterConnected(p, profile, auth, list).(log := p.log) == p
    ensures DropsLink(p, auth, list) ==>
              AfterConnected(p, profile, auth, list).(log := p.log) == SetState(p, DISCONNECTED, profile).(log := p.log)
    ensures Consistent(p, profile) ==> Consistent(AfterConnected(p, profile, auth, list), profile)
  {
    if p.state == CONNECTED {
      match auth
      case Throws(message) =>
        WriteLogAppends(p, "Error", "Failed to authenticate! " + message);
      case LinkDown =>
        LinkDropsOnce(p, profile);
      case Ok =>
    }
  }

  /** A message from the server: its body is logged as the server's line,
      then the player count is read from it. */
  function Received(p: Page, body: string): (r: Page)
    ensures r.log == WriteLog(p, "Server", body).log
    ensures r.onlinePlayerText == PlayerCount.UpdatePlayerText(p.onlinePlayerText, body)
    ensures r.(log := p.log, onlinePlayerText := p.onlinePlayerText) == p
  {
    WriteLog(p, "Server", body).(onlinePlayerText := PlayerCount.UpdatePlayerText(p.onlinePlayerText, body))
  }

  /** Every step of the page keeps the log it had and keeps the controls
      consistent with the state. */
  datatype Action =
    | ToggleAction(outcome: ConnectOutcome)
    | SendAction(sent: CallOutcome)
    | RefreshAction(listed: CallOutcome, reconnect: ConnectOutcome)
    | AfterConnectedAction(auth: CallOutcome, list: CallOutcome)
    | ReceivedAction(body: string)
    | TypeAction(entry: string)

  function Step(p: Page, profile: ServerProfile, a: Action): Page {
    match a
    case ToggleAction(outcome) => Toggle(p, profile, outcome)
    case SendAction(outcome) => Send(p, profile, outcome)
    case RefreshAction(outcome, reconnect) => Refresh(p, profile, outcome, reconnect)
    case AfterConnectedAction(auth, list) => AfterConnected(p, profile, auth, list)
    case ReceivedAction(body) => Received(p, body)
    case TypeAction(entry) => p.(entry := entry)
  }

  function Run(p: Page, profile: ServerProfile, actions: seq<Action>): Page
    decreases |actions|
  {
    if actions == [] then p else Run(Step(p, profile, actions[0]), profile, actions[1..])
  }

  /** One step keeps the log and the consistency of the controls. */
  lemma StepKeepsConsistent(p: Page, profile: ServerProfile, a: Action)
    requires Consistent(p, profile)
    ensures Consistent(Step(p, profile, a), profile)
    ensures p.log <= Step(p, profile, a).log
  {
    match a
    case ToggleAction(outcome) =>
    case SendAction(outcome) =>
    case RefreshAction(outcome, reconnect) =>
    case AfterConnectedAction(auth, list) =>
      AfterConnectedAppends(p, profile, auth, list);
    case ReceivedAction(body) =>
      WriteLogAppends(p, "Server", body);
    case TypeAction(entry) =>
  }

  /** From a consistent page, whatever happens, the controls agree with
      the state and the log only grows. */
  lemma {:induction false} RunKeepsConsistent(p: Page, profile: ServerProfile, actions: seq<Action>)
    requires Consistent(p, profile)
    ensures Consistent(Run(p, profile, actions), profile)
    ensures p.log <= Run(p, profile, actions).log
    decreases |actions|
  {
    if actions != [] {
      var q := Step(p, profile, actions[0]);
      StepKeepsConsistent(p, profile, actions[0]);
      RunKeepsConsistent(q, profile, actions[1..]);
    }
  }

  /** In particular, a page can send only while connected or connecting:
      a disconnected page always has sending disabled. */
  lemma DisconnectedCannotSend(profile: ServerProfile, actions: seq<Action>)
    ensures Run(NewPage(profile), profile, actions).state == DISCONNECTED ==>
              !Run(NewPage(profile), profile, actions).sendEnabled
  {
    NewPageConsistent(profile);
    RunKeepsConsistent(NewPage(profile), profile, actions);
  }
}

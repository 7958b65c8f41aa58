/** The chat session: handlers over two maps, specified by what each connection does on its own
    (src/chat/chat_session.cpp). */
module ChatSession {
  import opened Text
  import opened Protocol
  import opened Connection
  import opened Config
  import Message
  import SessionJson

  type ConnId = string

  datatype PeerInfo = PeerInfo(
    deviceId: string, displayName: string, address: string, port: uint16, platform: string,
    state: ConnectionState)

  const NEW_PEER := PeerInfo("", "", "", 0, "", CONNECTED)

  // ---- Payloads the session sends --------------------------------------------

  function HelloPacket(cfg: AppConfig): Packet {
    Packet(HELLO, SessionJson.HelloPayload(cfg.deviceId, cfg.displayName, cfg.platform, cfg.listenPort))
  }

  function AuthRequestPacket(cfg: AppConfig, peerId: string): Packet {
    Packet(AUTH_REQUEST, SessionJson.AuthRequestPayload(peerId + "|" + cfg.deviceId))
  }

  function ResponseText(cfg: AppConfig): string {
    if cfg.pskHash == "" then "ok" else cfg.pskHash
  }

  function AuthResponsePacket(cfg: AppConfig): Packet {
    Packet(AUTH_RESPONSE, SessionJson.AuthResponsePayload(ResponseText(cfg), cfg.deviceId))
  }

  function ChatPacket(m: Message.ChatMessage): Packet { Packet(CHAT_MESSAGE, Message.ToJson(m)) }

  function AuthOkPacket(): Packet { Packet(AUTH_OK, "{}") }

  function AuthFailPacket(): Packet { Packet(AUTH_FAIL, "{\"reason\":\"bad credentials\"}") }

  function PingPacket(): Packet { Packet(PING, "{}") }

  function PongPacket(): Packet { Packet(PONG, "{}") }

  /** The reasons the session gives for disconnecting; they travel in DISCONNECT frames. */
  function InvalidHello(): string { "invalid HELLO" }

  function AuthFailed(): string { "authentication failed" }

  function DisconnectRequested(): string { "peer requested disconnect" }

  function SessionStopped(): string { "session stopped" }

  predicate ValidHello(p: Packet) {
    p.mtype == HELLO && SessionJson.ExtractStr(p.payload, "device_id") != ""
  }

  predicate Accepts(cfg: AppConfig, p: Packet) {
    cfg.pskHash == "" || SessionJson.ExtractStr(p.payload, "response") == cfg.pskHash
  }

  // ---- One connection on its own ---------------------------------------------

  /** A peer-event callback, or the mark where the connection was added. */
  datatype Note = Added | Up(info: PeerInfo) | Down(info: PeerInfo)

  /** What the session knows of one connection id: its entries in the two maps, the frames put
      on its wire and the peer events announced for it. */
  datatype Local = Local(link: Option<Link>, peer: Option<PeerInfo>, sent: seq<Packet>, notes: seq<Note>)

  const UNKNOWN_ID := Local(None, None, [], [])

  datatype LocalEvent =
    | Idle
    | Adopt(broken: bool)
    | Receive(packet: Packet)
    | Drop
    | Say(msg: Message.ChatMessage)
    | SayTo(peerId: string, msg: Message.ChatMessage)
    | Ping
    | Shut
    | Break
    | Close(reason: string)

  predicate Authenticated(l: Local) { l.peer.Some? && l.peer.value.state == AUTHENTICATED }

  function Put(l: Local, p: Packet): Local {
    if l.link.Some? then l.(sent := l.sent + Transmit(l.link.value, p)) else l
  }

  function Hang(l: Local, reason: string): Local {
    if l.link.Some? then Put(l, Packet(DISCONNECT, reason)).(link := Some(HangUp(l.link.value))) else l
  }

  function Forgotten(l: Local): Local {
    l.(link := None, peer := None,
       notes := l.notes + if Authenticated(l) then [Down(l.peer.value)] else [])
  }

  lemma PutUnusable(l: Local, p: Packet)
    requires l.link.Some? ==> !Usable(l.link.value)
    ensures Put(l, p) == l
  {
    assert l.sent + [] == l.sent;
  }

  function PeerOf(l: Local): PeerInfo { if l.peer.Some? then l.peer.value else NEW_PEER }

  function OnHello(cfg: AppConfig, l: Local, p: Packet): Local {
    if !ValidHello(p) then Hang(l, InvalidHello())
    else Introduced(cfg, l, PeerOf(l).(
      deviceId := SessionJson.ExtractStr(p.payload, "device_id"),
      displayName := SessionJson.ExtractStr(p.payload, "display_name"),
      platform := SessionJson.ExtractStr(p.payload, "platform")))
  }

  function Introduced(cfg: AppConfig, l: Local, who: PeerInfo): Local {
    if cfg.requireAuth then
      Put(l.(peer := Some(who.(state := AUTHENTICATING))), AuthRequestPacket(cfg, who.deviceId))
    else
      var info := who.(state := AUTHENTICATED);
      l.(peer := Some(info), notes := l.notes + [Up(info)])
  }

  function OnAuthResponse(cfg: AppConfig, l: Local, p: Packet): Local {
    if l.link.None? then l
    else if Accepts(cfg, p) then
      var info := PeerOf(l).(state := AUTHENTICATED);
      Put(l.(peer := Some(info), notes := l.notes + [Up(info)]), AuthOkPacket())
    else Hang(Put(l, AuthFailPacket()), AuthFailed())
  }

  function OnPacket(cfg: AppConfig, l: Local, p: Packet): Local {
    match p.mtype
    case HELLO => OnHello(cfg, l, p)
    case AUTH_REQUEST => Put(l, AuthResponsePacket(cfg))
    case AUTH_RESPONSE => OnAuthResponse(cfg, l, p)
    case PING => Put(l, PongPacket())
    case DISCONNECT => Hang(l, DisconnectRequested())
    case _ => l
  }

  function OnAdopt(cfg: AppConfig, l: Local, broken: bool): Local {
    Put(l.(link := Some(Link(true, broken)), peer := Some(NEW_PEER), notes := l.notes + [Added]), HelloPacket(cfg))
  }

  function OnSay(l: Local, m: Message.ChatMessage): Local {
    if Authenticated(l) then Put(l, ChatPacket(m)) else l
  }

  function OnSayTo(l: Local, peerId: string, m: Message.ChatMessage): Local {
    if Authenticated(l) && l.peer.value.deviceId == peerId then Put(l, ChatPacket(m)) else l
  }

  function OnPing(l: Local): Local {
    if l.link.Some? && !Usable(l.link.value) then Forgotten(l) else Put(l, PingPacket())
  }

  function OnShut(l: Local): Local { Hang(l, SessionStopped()).(link := None, peer := None) }

  function OnBreak(l: Local): Local {
    if l.link.Some? then l.(link := Some(l.link.value.(broken := true))) else l
  }

  /** The automaton of one connection. */
  function LocalStep(cfg: AppConfig, l: Local, e: LocalEvent): Local {
    match e
    case Idle => l
    case Adopt(broken) => OnAdopt(cfg, l, broken)
    case Receive(p) => OnPacket(cfg, l, p)
    case Drop => Forgotten(l)
    case Say(m) => OnSay(l, m)
    case SayTo(peerId, m) => OnSayTo(l, peerId, m)
    case Ping => OnPing(l)
    case Shut => OnShut(l)
    case Break => OnBreak(l)
    case Close(reason) => Hang(l, reason)
  }

  lemma SayPuts(cfg: AppConfig, l: Local, m: Message.ChatMessage)
    ensures LocalStep(cfg, l, Say(m)) ==
      if Authenticated(l) && l.link.Some? && Usable(l.link.value) then l.(sent := l.sent + [ChatPacket(m)]) else l
  {
    hide ChatPacket;
    assert l.sent + [] == l.sent;
  }

  /** What the message callback gets from a frame. */
  function Heard(l: Local, p: Packet): seq<Message.ChatMessage> {
    if p.mtype != CHAT_MESSAGE || !Authenticated(l) then []
    else match Message.FromJson(p.payload)
      case None => []
      case Some(m) => [m]
  }

  // ---- Traces of a whole session ---------------------------------------------

  datatype Event =
    | Start
    | Stop
    | Add(c: ConnId, broken: bool)
    | Frame(c: ConnId, packet: Packet)            // onFrame
    | Lost(c: ConnId)                             // onDisconnect
    | Broadcast(id: string, time: Message.int64, text: string)
    | SendTo(c: ConnId, peerId: string, id: string, time: Message.int64, text: string)
    | PingRound
    | SocketFails(c: ConnId)
    | ClosedHere(c: ConnId, reason: string)       // protocol error or rate limit

  function Chat(cfg: AppConfig, id: string, time: Message.int64, text: string): Message.ChatMessage {
    Message.ChatMessage(id, cfg.deviceId, cfg.displayName, time, text)
  }

  lemma ChatIs(cfg: AppConfig, id: string, time: Message.int64, text: string)
    ensures ChatPacket(Chat(cfg, id, time, text)) ==
      Packet(CHAT_MESSAGE, Message.ToJson(Message.ChatMessage(id, cfg.deviceId, cfg.displayName, time, text)))
  {
    hide Message.ToJson;
  }

  function RunningAfter(trace: seq<Event>): bool {
    if trace == [] then false
    else match trace[|trace| - 1]
      case Start => true
      case Stop => false
      case _ => RunningAfter(trace[..|trace| - 1])
  }

  /** What an event is to one connection id. */
  function Project(cfg: AppConfig, running: bool, e: Event, c: ConnId): LocalEvent {
    match e
    case Start => Idle
    case Stop => if running then Shut else Idle
    case Add(d, broken) => if c == d && running then Adopt(broken) else Idle
    case Frame(d, p) => if c == d then Receive(p) else Idle
    case Lost(d) => if c == d then Drop else Idle
    case Broadcast(id, time, text) => Say(Chat(cfg, id, time, text))
    case SendTo(d, peerId, id, time, text) => if c == d then SayTo(peerId, Chat(cfg, id, time, text)) else Idle
    case PingRound => if running then Ping else Idle
    case SocketFails(d) => if c == d then Break else Idle
    case ClosedHere(d, reason) => if c == d then Close(reason) else Idle
  }

  /** One connection after a session trace: its automaton run on the events projected to it. */
  function LocalAfter(cfg: AppConfig, trace: seq<Event>, c: ConnId): Local {
    if trace == [] then UNKNOWN_ID
    else
      var before := trace[..|trace| - 1];
      LocalStep(cfg, LocalAfter(cfg, before, c), Project(cfg, RunningAfter(before), trace[|trace| - 1], c))
  }

  lemma AfterOneMore(cfg: AppConfig, trace: seq<Event>, e: Event, c: ConnId)
    ensures LocalAfter(cfg, trace + [e], c) ==
      LocalStep(cfg, LocalAfter(cfg, trace, c), Project(cfg, RunningAfter(trace), e, c))
  {
    hide LocalStep, Project, RunningAfter;
    assert (trace + [e])[..|trace|] == trace;
  }

  function MessagesAfter(cfg: AppConfig, trace: seq<Event>): seq<Message.ChatMessage> {
    if trace == [] then []
    else
      var before, e := trace[..|trace| - 1], trace[|trace| - 1];
      MessagesAfter(cfg, before) + if e.Frame? then Heard(LocalAfter(cfg, before, e.c), e.packet) else []
  }

  lemma MessagesOneMore(cfg: AppConfig, trace: seq<Event>, e: Event)
    ensures MessagesAfter(cfg, trace + [e]) ==
      MessagesAfter(cfg, trace) + if e.Frame? then Heard(LocalAfter(cfg, trace, e.c), e.packet) else []
  {
    hide LocalAfter, Heard;
    assert (trace + [e])[..|trace|] == trace;
  }

  /** The order of std::string, in which a map is walked. */
  predicate Less(s: string, t: string) {
    t != "" && (s == "" || s[0] < t[0] || (s[0] == t[0] && Less(s[1..], t[1..])))
  }

  lemma {:induction false} LessTransitive(s: string, t: string, u: string)
    requires Less(s, t) && Less(t, u)
    ensures Less(s, u)
  {
    if s != "" && s[0] == t[0] == u[0] { LessTransitive(s[1..], t[1..], u[1..]); }
  }

  lemma {:induction false} LessIrreflexive(s: string)
    ensures !Less(s, s)
  {
    if s != "" { LessIrreflexive(s[1..]); }
  }

  /** It is the lexicographic order by character codes. */
  lemma {:induction false} LessIs(s: string, t: string)
    ensures Less(s, t) <==> exists k: nat :: FirstDifference(s, t, k)
  {
    if s != "" && t != "" && s[0] == t[0] {
      LessIs(s[1..], t[1..]);
      if k: nat :| FirstDifference(s[1..], t[1..], k) {
        assert forall i :: 0 < i <= k ==> s[i] == s[1..][i - 1] && t[i] == t[1..][i - 1];
        assert FirstDifference(s, t, k + 1);
      }
      if k: nat :| FirstDifference(s, t, k) {
        assert k > 0 && forall i :: 0 <= i < k - 1 ==> s[1..][i] == s[i + 1] && t[1..][i] == t[i + 1];
        assert FirstDifference(s[1..], t[1..], k - 1);
      }
    } else if Less(s, t) {
      assert FirstDifference(s, t, 0);
    }
  }

  /** Up to `k` both are the same, and there `s` ends or has the smaller character. */
  ghost predicate FirstDifference(s: string, t: string, k: nat) {
    && k <= |s| && k < |t|
    && (forall i :: 0 <= i < k ==> s[i] == t[i])
    && (k == |s| || s[k] < t[k])
  }

  function At<T>(m: map<ConnId, seq<T>>, c: ConnId): seq<T> { if c in m then m[c] else [] }

  // ---- The session object ----------------------------------------------------

  class ChatSession {
    const config: AppConfig
    var running: bool
    var connections: map<ConnId, Link>
    var peers: map<ConnId, PeerInfo>
    var messages: seq<Message.ChatMessage>        // calls of the message callback
    ghost var sent: map<ConnId, seq<Packet>>      // frames put on each wire
    ghost var notes: map<ConnId, seq<Note>>       // calls of the peer-event callback
    ghost var trace: seq<Event>                   // every call so far

    ghost function View(c: ConnId): Local
      reads this`connections, this`peers, this`sent, this`notes
    {
      Local(if c in connections then Some(connections[c]) else None,
            if c in peers then Some(peers[c]) else None, At(sent, c), At(notes, c))
    }

    /** The object is what its trace says: connection by connection, and in its messages. */
    ghost predicate Valid()
      reads this
    {
      && running == RunningAfter(trace)
      && messages == MessagesAfter(config, trace)
      && forall c :: View(c) == LocalAfter(config, trace, c)
    }

    constructor (config: AppConfig)
      ensures Valid() && trace == [] && this.config == config
    {
      this.config := config;
      running, connections, peers, messages := false, map[], map[], [];
      sent, notes, trace := map[], map[], [];
    }

    /** Connection::send. */
    method Send(c: ConnId, p: Packet) returns (ok: bool)
      requires c in connections
      modifies this`sent
      ensures ok == Usable(connections[c])
      ensures At(sent, c) == At(old(sent), c) + Transmit(connections[c], p)
      ensures forall d :: d != c ==> At(sent, d) == At(old(sent), d)
    {
      ok := Usable(connections[c]);
      if ok { sent := sent[c := At(sent, c) + [p]]; } else { assert At(sent, c) + [] == At(sent, c); }
    }

    /** Connection::disconnect. */
    method Disconnect(c: ConnId, reason: string)
      requires c in connections
      modifies this`sent, this`connections
      ensures View(c) == Hang(old(View(c)), reason)
      ensures forall d :: d != c ==> View(d) == old(View(d))
      ensures connections.Keys == old(connections.Keys)
    {
      var link := connections[c];
      if !link.running { assert At(sent, c) + [] == At(sent, c); return; }
      var _ := Send(c, Packet(DISCONNECT, reason));
      connections := connections[c := link.(running := false)];
    }

    ghost method Announce(c: ConnId, n: Note)
      modifies this`notes
      ensures notes == old(notes)[c := At(old(notes), c) + [n]]
    {
      notes := notes[c := At(notes, c) + [n]];
    }

    /** The step of the trace that a finished call stands for. */
    ghost method Record(e: Event, before: seq<Event>)
      requires trace == before && running == RunningAfter(before + [e])
      requires messages == MessagesAfter(config, before) +
        if e.Frame? then Heard(LocalAfter(config, before, e.c), e.packet) else []
      requires forall c ::
        View(c) == LocalStep(config, LocalAfter(config, before, c), Project(config, RunningAfter(before), e, c))
      modifies this`trace
      ensures Valid() && trace == before + [e]
    {
      trace := before + [e];
      hide LocalAfter, LocalStep, Project, View, Heard, RunningAfter, MessagesAfter;
      forall c ensures View(c) == LocalAfter(config, trace, c) { AfterOneMore(config, before, e, c); }
      MessagesOneMore(config, before, e);
    }

    /** The same for an event that concerns one connection only. */
    ghost method RecordAt(e: Event, c: ConnId, before: seq<Event>)
      requires trace == before && running == RunningAfter(before + [e]) == RunningAfter(before)
      requires messages == MessagesAfter(config, before) +
        if e.Frame? then Heard(LocalAfter(config, before, e.c), e.packet) else []
      requires forall d :: d != c ==> Project(config, running, e, d) == Idle
      requires View(c) == LocalStep(config, LocalAfter(config, before, c), Project(config, running, e, c))
      requires forall d :: d != c ==> View(d) == LocalAfter(config, before, d)
      modifies this`trace
      ensures Valid() && trace == before + [e]
    {
      hide LocalAfter, MessagesAfter, View, Project, Heard, RunningAfter;
      Record(e, before);
    }

    lemma SameRun(before: seq<Event>, e: Event)
      requires !e.Start? && !e.Stop?
      ensures RunningAfter(before + [e]) == RunningAfter(before)
    {
      assert (before + [e])[..|before|] == before;
    }

    method Start()
      requires Valid()
      modifies this
      ensures Valid() && trace == old(trace) + [Event.Start]
    {
      hide LocalAfter, MessagesAfter, View;
      running := true;
      assert (trace + [Event.Start])[..|trace|] == trace;
      assert messages + [] == messages;
      Record(Event.Start, trace);
    }

    method AddConnection(c: ConnId, broken: bool)
      requires Valid()
      modifies this
      ensures Valid() && trace == old(trace) + [Add(c, broken)]
    {
      hide LocalAfter, MessagesAfter, RunningAfter, View, Put, HelloPacket;
      if running { Adopted(c, broken); }
      SameRun(trace, Add(c, broken));
      assert messages + [] == messages;
      RecordAt(Add(c, broken), c, trace);
    }

    method Adopted(c: ConnId, broken: bool)
      modifies this`connections, this`peers, this`sent, this`notes
      ensures View(c) == LocalStep(config, old(View(c)), Adopt(broken))
      ensures forall d :: d != c ==> View(d) == old(View(d))
    {
      hide HelloPacket;
      connections := connections[c := Link(true, broken)];
      peers := peers[c := NEW_PEER];
      Announce(c, Added);
      var _ := Send(c, HelloPacket(config));
    }

    // ---- Incoming frames ----

    method OnFrame(c: ConnId, p: Packet)
      requires Valid()
      modifies this
      ensures Valid() && trace == old(trace) + [Event.Frame(c, p)]
    {
      hide LocalAfter, MessagesAfter, RunningAfter, View, OnPacket, Heard;
      HandleFrame(c, p);
      SameRun(trace, Event.Frame(c, p));
      RecordAt(Event.Frame(c, p), c, trace);
    }

    method HandleFrame(c: ConnId, p: Packet)
      modifies this`connections, this`peers, this`sent, this`notes, this`messages
      ensures View(c) == OnPacket(config, old(View(c)), p)
      ensures forall d :: d != c ==> View(d) == old(View(d))
      ensures messages == old(messages) + Heard(old(View(c)), p)
    {
      hide OnHello, OnAuthResponse, Put, Hang, Message.FromJson, SessionJson.AuthResponsePayload;
      assert messages + [] == messages;
      match p.mtype {
        case HELLO => HandleHello(c, p.payload);
        case AUTH_REQUEST => HandleAuthRequest(c, p.payload);
        case AUTH_RESPONSE => HandleAuthResponse(c, p.payload);
        case CHAT_MESSAGE => HandleChatMessage(c, p.payload);
        case PING => HandlePing(c);
        case DISCONNECT => DisconnectId(c, DisconnectRequested());
        case _ =>
      }
    }

    /** Disconnect the connection with this id, if there is one. */
    method DisconnectId(c: ConnId, reason: string)
      modifies this`connections, this`sent
      ensures View(c) == Hang(old(View(c)), reason)
      ensures forall d :: d != c ==> View(d) == old(View(d))
    {
      if c in connections { Disconnect(c, reason); }
    }

    method HandleHello(c: ConnId, payload: string)
      modifies this`connections, this`peers, this`sent, this`notes
      ensures View(c) == OnHello(config, old(View(c)), Packet(HELLO, payload))
      ensures forall d :: d != c ==> View(d) == old(View(d))
    {
      hide Introduced, Hang;
      var deviceId := SessionJson.ReadString(payload, "device_id");
      var displayName := SessionJson.ReadString(payload, "display_name");
      var platform := SessionJson.ReadString(payload, "platform");
      if deviceId == "" {
        DisconnectId(c, InvalidHello());
        return;
      }
      var peer := if c in peers then peers[c] else NEW_PEER;
      Introduce(c, peer.(deviceId := deviceId, displayName := displayName, platform := platform));
    }

    method Introduce(c: ConnId, peer: PeerInfo)
      modifies this`peers, this`sent, this`notes
      ensures View(c) == Introduced(config, old(View(c)), peer)
      ensures forall d :: d != c ==> View(d) == old(View(d))
    {
      hide AuthRequestPacket;
      if config.requireAuth {
        peers := peers[c := peer.(state := AUTHENTICATING)];
        if c in connections { var _ := Send(c, AuthRequestPacket(config, peer.deviceId)); }
      } else {
        peers := peers[c := peer.(state := AUTHENTICATED)];
        Announce(c, Up(peers[c]));
      }
    }

    method HandleAuthRequest(c: ConnId, payload: string)
      modifies this`sent
      ensures View(c) == Put(old(View(c)), AuthResponsePacket(config))
      ensures forall d :: d != c ==> View(d) == old(View(d))
    {
      hide AuthResponsePacket;
      var challenge := SessionJson.ReadString(payload, "challenge");   // read, but not used
      if c in connections { var _ := Send(c, AuthResponsePacket(config)); }
    }

    method HandleAuthResponse(c: ConnId, payload: string)
      modifies this`connections, this`peers, this`sent, this`notes
      ensures View(c) == OnAuthResponse(config, old(View(c)), Packet(AUTH_RESPONSE, payload))
      ensures forall d :: d != c ==> View(d) == old(View(d))
    {
      hide AuthOkPacket, AuthFailPacket, AuthFailed, SessionJson.ExtractStr, Hang;
      var response := SessionJson.ReadString(payload, "response");
      var accepted := config.pskHash == "" || response == config.pskHash;
      if c !in connections { return; }
      if accepted {
        var peer := if c in peers then peers[c] else NEW_PEER;
        peers := peers[c := peer.(state := AUTHENTICATED)];
        var _ := Send(c, AuthOkPacket());
        Announce(c, Up(peers[c]));
      } else {
        var _ := Send(c, AuthFailPacket());
        Disconnect(c, AuthFailed());
      }
    }

    method HandleChatMessage(c: ConnId, payload: string)
      modifies this`messages
      ensures messages == old(messages) + Heard(View(c), Packet(CHAT_MESSAGE, payload))
    {
      assert messages + [] == messages;
      if c !in peers || peers[c].state != AUTHENTICATED { return; }
      var msg := Message.ParseMessage(payload);
      if msg.None? { return; }
      messages := messages + [msg.value];
    }

    method HandlePing(c: ConnId)
      modifies this`sent
      ensures View(c) == Put(old(View(c)), PongPacket())
      ensures forall d :: d != c ==> View(d) == old(View(d))
    {
      if c in connections { var _ := Send(c, PongPacket()); }
    }

    // ---- Disconnecting ----

    method OnDisconnect(c: ConnId)
      requires Valid()
      modifies this
      ensures Valid() && trace == old(trace) + [Lost(c)]
    {
      hide LocalAfter, MessagesAfter, RunningAfter, View, Forgotten;
      Forget(c);
      SameRun(trace, Lost(c));
      assert messages + [] == messages;
      RecordAt(Lost(c), c, trace);
    }

    /** The body of onDisconnect, which the ping loop shares. */
    method Forget(c: ConnId)
      modifies this`connections, this`peers, this`notes
      ensures View(c) == Forgotten(old(View(c))) && connections == old(connections) - {c}
      ensures forall d :: d != c ==> View(d) == old(View(d))
    {
      assert At(notes, c) + [] == At(notes, c);
      if c in peers {
        var info := peers[c];
        peers := peers - {c};
        if info.state == AUTHENTICATED { Announce(c, Down(info)); }
      }
      connections := connections - {c};
    }

    method Stop()
      requires Valid()
      modifies this
      ensures Valid() && trace == old(trace) + [Event.Stop]
    {
      hide LocalAfter, MessagesAfter, View, Hang;
      if running {
        running := false;
        ShutAll();
      }
      assert (trace + [Event.Stop])[..|trace|] == trace;
      assert messages + [] == messages;
      Record(Event.Stop, trace);
    }

    method ShutAll()
      modifies this`sent, this`connections, this`peers
      ensures forall d :: View(d) == LocalStep(config, old(View(d)), Shut)
    {
      DisconnectAll();
      connections, peers := map[], map[];
    }

    method DisconnectAll()
      modifies this`sent, this`connections
      ensures forall d :: At(sent, d) == Hang(old(View(d)), SessionStopped()).sent
    {
      var todo := connections.Keys;
      while todo != {}
        invariant todo <= connections.Keys == old(connections.Keys)
        invariant forall d :: View(d) == if d in todo then old(View(d)) else Hang(old(View(d)), SessionStopped())
        decreases |todo|
      {
        var c :| c in todo;
        todo := todo - {c};
        Disconnect(c, SessionStopped());
      }
      assert forall d :: At(sent, d) == View(d).sent;
    }

    /** The socket of a connection stops taking data. */
    method SocketBreaks(c: ConnId)
      requires Valid()
      modifies this
      ensures Valid() && trace == old(trace) + [SocketFails(c)]
    {
      hide LocalAfter, MessagesAfter, RunningAfter;
      if c in connections { connections := connections[c := connections[c].(broken := true)]; }
      SameRun(trace, SocketFails(c));
      assert messages + [] == messages;
      RecordAt(SocketFails(c), c, trace);
    }

    /** The receive loop disconnects for a protocol error or the rate limit. */
    method ReceiverDisconnects(c: ConnId, reason: string)
      requires Valid()
      modifies this
      ensures Valid() && trace == old(trace) + [ClosedHere(c, reason)]
    {
      hide LocalAfter, MessagesAfter, RunningAfter, View, Hang;
      DisconnectId(c, reason);
      SameRun(trace, ClosedHere(c, reason));
      assert messages + [] == messages;
      RecordAt(ClosedHere(c, reason), c, trace);
    }

    // ---- Sending chats ----

    method Broadcast(id: string, time: Message.int64, text: string)
      requires Valid()
      modifies this
      ensures Valid() && trace == old(trace) + [Event.Broadcast(id, time, text)]
      ensures var m := Message.ChatMessage(id, config.deviceId, config.displayName, time, text);
        forall c ::
          At(sent, c) == At(old(sent), c) + if old(Reaches(c)) then [Packet(CHAT_MESSAGE, Message.ToJson(m))] else []
    {
      hide LocalAfter, MessagesAfter, RunningAfter, View, LocalStep;
      BroadcastAll(Chat(config, id, time, text));
      SaidBy(Chat(config, id, time, text));
      SameRun(trace, Event.Broadcast(id, time, text));
      assert messages + [] == messages;
      Record(Event.Broadcast(id, time, text), trace);
    }

    method BroadcastAll(msg: Message.ChatMessage)
      modifies this`sent
      ensures forall d :: View(d) == LocalStep(config, old(View(d)), Say(msg))
    {
      var todo := connections.Keys;
      NothingToSay(msg);
      hide View, LocalStep;
      while todo != {}
        invariant todo <= connections.Keys
        invariant forall d :: View(d) == if d in todo then old(View(d)) else LocalStep(config, old(View(d)), Say(msg))
        decreases |todo|
      {
        var c :| c in todo;
        todo := todo - {c};
        SayOne(c, msg);
      }
    }

    /** A broadcast gets to this connection. */
    ghost predicate Reaches(c: ConnId)
      reads this`connections, this`peers
    {
      c in connections && Usable(connections[c]) && c in peers && peers[c].state == AUTHENTICATED
    }

    /** The wires after a broadcast. */
    twostate lemma SaidBy(msg: Message.ChatMessage)
      requires forall d :: View(d) == LocalStep(config, old(View(d)), Say(msg))
      ensures forall d :: At(sent, d) == At(old(sent), d) + if old(Reaches(d)) then [ChatPacket(msg)] else []
    {
      hide ChatPacket, LocalStep;
      forall d ensures At(sent, d) == At(old(sent), d) + if old(Reaches(d)) then [ChatPacket(msg)] else [] {
        SayPuts(config, old(View(d)), msg);
        assert View(d).sent == At(sent, d);
        assert At(old(sent), d) + [] == At(old(sent), d);
      }
    }

    lemma NothingToSay(msg: Message.ChatMessage)
      ensures forall d :: d !in connections ==> LocalStep(config, View(d), Say(msg)) == View(d)
    {}

    method SayOne(c: ConnId, msg: Message.ChatMessage)
      requires c in connections
      modifies this`sent
      ensures View(c) == LocalStep(config, old(View(c)), Say(msg))
      ensures forall d :: d != c ==> View(d) == old(View(d))
    {
      hide ChatPacket;
      if c in peers && peers[c].state == AUTHENTICATED { var _ := Send(c, ChatPacket(msg)); }
    }

    predicate Named(d: ConnId, peerId: string)
      reads this`peers
    {
      d in peers && peers[d].state == AUTHENTICATED && peers[d].deviceId == peerId
    }

    /** The first connection id, in the order of the map, whose peer is authenticated and has this device id. */
    ghost predicate FirstNamed(c: ConnId, peerId: string)
      reads this`peers
    {
      Named(c, peerId) && forall d :: Named(d, peerId) ==> !Less(d, c)
    }

    /** The message goes to the first authenticated peer with this device id, if there is one; the
        answer says whether it reached that peer's wire. */
    method SendTo(peerId: string, id: string, time: Message.int64, text: string)
      returns (ok: bool, c: ConnId)
      requires Valid()
      modifies this
      ensures Valid() && trace == old(trace) + [Event.SendTo(c, peerId, id, time, text)]
      ensures ok <==> c in connections && Usable(connections[c]) && Named(c, peerId)
      ensures (exists d :: Named(d, peerId)) ==> FirstNamed(c, peerId)
      ensures var m := Message.ChatMessage(id, config.deviceId, config.displayName, time, text);
        At(sent, c) == At(old(sent), c) + if ok then [Packet(CHAT_MESSAGE, Message.ToJson(m))] else []
      ensures forall d :: d != c ==> At(sent, d) == At(old(sent), d)
    {
      hide LocalAfter, MessagesAfter, RunningAfter, View, LocalStep;
      ok, c := SendToPeer(peerId, Chat(config, id, time, text));
      var e := Event.SendTo(c, peerId, id, time, text);
      SameRun(trace, e);
      assert messages + [] == messages;
      RecordAt(e, c, trace);
    }

    method SendToPeer(peerId: string, msg: Message.ChatMessage) returns (ok: bool, c: ConnId)
      modifies this`sent
      ensures View(c) == LocalStep(config, old(View(c)), SayTo(peerId, msg))
      ensures forall d :: d != c ==> View(d) == old(View(d))
      ensures ok <==> c in connections && Usable(connections[c]) && Named(c, peerId)
      ensures (exists d :: Named(d, peerId)) ==> FirstNamed(c, peerId)
      ensures At(sent, c) == At(old(sent), c) + if ok then [ChatPacket(msg)] else []
      ensures forall d :: d != c ==> At(sent, d) == At(old(sent), d)
    {
      hide ChatPacket;
      var found: bool;
      found, c := FindPeer(peerId);
      ok := false;
      assert At(sent, c) + [] == At(sent, c);
      if found && c in connections { ok := Send(c, ChatPacket(msg)); }
    }

    method FindPeer(peerId: string) returns (found: bool, c: ConnId)
      ensures found <==> Named(c, peerId)
      ensures (exists d :: Named(d, peerId)) ==> found && FirstNamed(c, peerId)
    {
      hide Less;
      var todo := peers.Keys;
      found, c := false, "";
      while todo != {}
        invariant todo <= peers.Keys
        invariant found ==> Named(c, peerId) && forall d :: Named(d, peerId) && d !in todo ==> !Less(d, c)
        invariant !found ==> forall d :: Named(d, peerId) ==> d in todo
        decreases |todo|
      {
        var d :| d in todo;
        todo := todo - {d};
        if peers[d].deviceId == peerId && peers[d].state == AUTHENTICATED && (!found || Less(d, c)) {
          LessIrreflexive(d);
          forall e | Less(e, d) && Less(d, c) ensures Less(e, c) { LessTransitive(e, d, c); }
          c, found := d, true;
        }
      }
    }

    // ---- Keepalive ----

    /** One round of the ping loop: ping everyone, then drop those that could not be reached. */
    method PingLoopRound()
      requires Valid()
      modifies this
      ensures Valid() && trace == old(trace) + [PingRound]
      ensures old(running) ==> forall c :: c in connections <==> c in old(connections) && Usable(old(connections)[c])
    {
      hide LocalAfter, MessagesAfter, RunningAfter, View, LocalStep;
      if running { PingAndDrop(); }
      SameRun(trace, PingRound);
      assert messages + [] == messages;
      IdleSteps();
      Record(PingRound, trace);
    }

    lemma IdleSteps()
      ensures forall l :: LocalStep(config, l, Idle) == l
    {}

    method PingAndDrop()
      modifies this`connections, this`peers, this`sent, this`notes
      ensures forall d :: View(d) == LocalStep(config, old(View(d)), Ping)
      ensures forall c :: c in connections <==> c in old(connections) && Usable(old(connections)[c])
    {
      hide Forgotten;
      var deadConns := PingAll();
      forall d | d in deadConns ensures Put(old(View(d)), PingPacket()) == old(View(d)) {
        PutUnusable(old(View(d)), PingPacket());
      }
      DropAll(deadConns);
    }

    method DropAll(deadConns: seq<ConnId>)
      requires forall d :: d in deadConns ==> d in connections && !Usable(connections[d])
      modifies this`connections, this`peers, this`notes
      ensures forall d :: View(d) == if d in deadConns then Forgotten(old(View(d))) else old(View(d))
      ensures forall c :: c in connections <==> c in old(connections) && c !in deadConns
    {
      var i := 0;
      while i < |deadConns|
        invariant 0 <= i <= |deadConns|
        invariant forall d :: View(d) == if d in deadConns[..i] then Forgotten(old(View(d))) else old(View(d))
        invariant forall c :: c in connections <==> c in old(connections) && c !in deadConns[..i]
      {
        Forget(deadConns[i]);
        assert deadConns[..i + 1] == deadConns[..i] + [deadConns[i]];
        i := i + 1;
      }
      assert deadConns[..|deadConns|] == deadConns;
    }

    method PingAll() returns (deadConns: seq<ConnId>)
      modifies this`sent
      ensures forall d :: View(d) == Put(old(View(d)), PingPacket())
      ensures forall d :: d in deadConns <==> d in connections && !Usable(connections[d])
    {
      deadConns := [];
      var todo := connections.Keys;
      NobodyToPing();
      hide View, Put;
      while todo != {}
        invariant todo <= connections.Keys
        invariant forall d :: View(d) == if d in todo then old(View(d)) else Put(old(View(d)), PingPacket())
        invariant forall d :: d in deadConns <==> d in connections && d !in todo && !Usable(connections[d])
        decreases |todo|
      {
        var c :| c in todo;
        todo := todo - {c};
        var ok := PingOne(c);
        if !ok { deadConns := deadConns + [c]; }
      }
    }

    lemma NobodyToPing()
      ensures forall d :: d !in connections ==> Put(View(d), PingPacket()) == View(d)
    {}

    method PingOne(c: ConnId) returns (ok: bool)
      requires c in connections
      modifies this`sent
      ensures ok == Usable(connections[c])
      ensures View(c) == Put(old(View(c)), PingPacket())
      ensures forall d :: d != c ==> View(d) == old(View(d))
    {
      ok := Send(c, PingPacket());
    }

    // ---- Queries ----

    ghost function AuthenticatedIds(): set<ConnId>
      reads this`peers
    {
      set c | c in peers && peers[c].state == AUTHENTICATED
    }

    /** The peers of the authenticated connections, each once, listed in the order `ids`. */
    ghost predicate Listed(result: seq<PeerInfo>, ids: seq<ConnId>)
      reads this`peers
    {
      && |ids| == |result|
      && (forall i :: 0 <= i < |ids| ==> ids[i] in AuthenticatedIds() && result[i] == peers[ids[i]])
      && (forall i, j :: 0 <= i < j < |ids| ==> ids[i] != ids[j])
      && (forall c :: c in AuthenticatedIds() ==> c in ids)
    }

    method Peers() returns (result: seq<PeerInfo>)
      ensures exists ids :: Listed(result, ids)
      ensures |result| == |AuthenticatedIds()|
    {
      result := [];
      ghost var ids: seq<ConnId> := [];
      var todo := peers.Keys;
      ghost var done := {};
      while todo != {}
        invariant todo <= peers.Keys
        invariant done == (set c | c in AuthenticatedIds() && c !in todo)
        invariant |ids| == |result| == |done|
        invariant forall i :: 0 <= i < |ids| ==> ids[i] in done && result[i] == peers[ids[i]]
        invariant forall i, j :: 0 <= i < j < |ids| ==> ids[i] != ids[j]
        invariant forall c :: c in done ==> c in ids
        decreases |todo|
      {
        var c :| c in todo;
        todo := todo - {c};
        if peers[c].state == AUTHENTICATED {
          result, ids, done := result + [peers[c]], ids + [c], done + {c};
        }
      }
      assert done == AuthenticatedIds();
      assert Listed(result, ids);
    }

    method PeerCount() returns (count: nat)
      ensures count == |AuthenticatedIds()|
    {
      count := 0;
      var todo := peers.Keys;
      ghost var done := {};
      while todo != {}
        invariant todo <= peers.Keys
        invariant done == (set c | c in AuthenticatedIds() && c !in todo) && count == |done|
        decreases |todo|
      {
        var c :| c in todo;
        todo := todo - {c};
        if peers[c].state == AUTHENTICATED { count, done := count + 1, done + {c}; }
      }
      assert done == AuthenticatedIds();
    }
  }
}

/** Two sessions joined by two first-in-first-out channels: each side runs the automaton of its
    one connection, and receives what the other put on the wire, in order. */
module TwoParty {
  import opened Text
  import opened Protocol
  import opened Connection
  import opened Config
  import opened ChatSession
  import Message
  import SessionJson
  import SessionHistory

  /** One side: its connection, how much of the other side's wire it has received, and the calls
      of its message callback. */
  datatype End = End(cfg: AppConfig, local: Local, added: bool, read: nat, heard: seq<Message.ChatMessage>)

  /** A step of one side: addConnection, the next frame from the wire, or anything else that
      can happen to a connection (user input, pings, failures, disconnects). What a user says goes out under the
      side's own identity. */
  datatype Act = Connect(broken: bool) | Deliver | Own(event: LocalEvent)

  function Deliverable(x: End, y: End): bool { x.added && x.read < |y.local.sent| }

  predicate Possible(cfg: AppConfig, e: LocalEvent) {
    !e.Adopt? && !e.Receive? && (e.Say? || e.SayTo? ==> Spoken(cfg, e.msg))
  }

  /** broadcast and sendTo fill in the sender from the configuration. */
  predicate Spoken(cfg: AppConfig, m: Message.ChatMessage) {
    m.senderId == cfg.deviceId && m.senderName == cfg.displayName
  }

  function EndStep(x: End, y: End, a: Act): End {
    match a
    case Connect(broken) =>
      if x.added then x else x.(local := LocalStep(x.cfg, x.local, Adopt(broken)), added := true)
    case Deliver =>
      if !Deliverable(x, y) then x
      else
        var p := y.local.sent[x.read];
        x.(local := LocalStep(x.cfg, x.local, Receive(p)), read := x.read + 1,
           heard := x.heard + Heard(x.local, p))
    case Own(e) =>
      if !Possible(x.cfg, e) then x else x.(local := LocalStep(x.cfg, x.local, e))
  }

  datatype Duo = Duo(a: End, b: End)

  datatype Move = MoveA(act: Act) | MoveB(act: Act)

  function Step(d: Duo, m: Move): Duo {
    match m
    case MoveA(act) => d.(a := EndStep(d.a, d.b, act))
    case MoveB(act) => d.(b := EndStep(d.b, d.a, act))
  }

  function Fresh(cfg: AppConfig): End { End(cfg, UNKNOWN_ID, false, 0, []) }

  function Run(ca: AppConfig, cb: AppConfig, moves: seq<Move>): Duo {
    if moves == [] then Duo(Fresh(ca), Fresh(cb))
    else Step(Run(ca, cb, moves[..|moves| - 1]), moves[|moves| - 1])
  }

  lemma {:induction false} RunConfigs(ca: AppConfig, cb: AppConfig, moves: seq<Move>)
    ensures Run(ca, cb, moves).a.cfg == ca && Run(ca, cb, moves).b.cfg == cb
  {
    if moves != [] {
      hide LocalStep, Heard;
      RunConfigs(ca, cb, moves[..|moves| - 1]);
    }
  }

  // ---- What a wire carries ---------------------------------------------------

  ghost predicate Has(log: seq<Packet>, t: MessageType) {
    exists i :: 0 <= i < |log| && log[i].mtype == t
  }

  predicate Accepted(x: AppConfig, y: AppConfig) { Accepts(x, AuthResponsePacket(y)) }

  /** `y` asks `x` to authenticate, and `x` gets to answer. */
  predicate Asked(x: AppConfig, y: AppConfig) { y.requireAuth && x.deviceId != "" && y.deviceId != "" }

  /** HELLO first and once; then the order of the handshake: no answer before this side's own
      request, no chat before this side's own answer. */
  ghost predicate LogShape(x: AppConfig, y: AppConfig, log: seq<Packet>) {
    forall i :: 0 <= i < |log| ==> PacketShape(x, y, log, i)
  }

  ghost predicate PacketShape(x: AppConfig, y: AppConfig, log: seq<Packet>, i: nat)
    requires i < |log|
  {
    && (i == 0 ==> log[i] == HelloPacket(x))
    && (i > 0 ==> log[i].mtype != HELLO)
    && Ordered(x, y, log[..i], log[i])
  }

  ghost predicate Ordered(x: AppConfig, y: AppConfig, before: seq<Packet>, p: Packet) {
    && (p.mtype == AUTH_REQUEST ==> x.requireAuth && y.deviceId != "")
    && (p.mtype == AUTH_RESPONSE ==>
        p == AuthResponsePacket(x) && Asked(x, y) && (x.requireAuth ==> Has(before, AUTH_REQUEST)))
    && (p.mtype == CHAT_MESSAGE ==>
        && y.deviceId != ""
        && (x.requireAuth ==> x.deviceId != "" && Accepted(x, y))
        && (x.requireAuth && y.requireAuth ==> Has(before, AUTH_RESPONSE)))
  }

  /** What may be put on the wire next. */
  ghost predicate MayFollow(x: AppConfig, y: AppConfig, log: seq<Packet>, p: Packet) {
    log != [] && p.mtype != HELLO && Ordered(x, y, log, p)
  }

  lemma ShapeGrows(x: AppConfig, y: AppConfig, log: seq<Packet>, p: Packet)
    requires LogShape(x, y, log) && MayFollow(x, y, log, p)
    ensures LogShape(x, y, log + [p])
  {
    hide Ordered, HelloPacket;
    var all := log + [p];
    forall i | 0 <= i < |all| ensures PacketShape(x, y, all, i) {
      if i < |log| {
        assert PacketShape(x, y, log, i) && all[..i] == log[..i];
      } else {
        assert all[..i] == log;
      }
    }
  }

  lemma ShapeOfPrefix(x: AppConfig, y: AppConfig, log: seq<Packet>, n: nat)
    requires LogShape(x, y, log) && n <= |log|
    ensures LogShape(x, y, log[..n])
  {
    hide Ordered, HelloPacket;
    forall i | 0 <= i < n ensures PacketShape(x, y, log[..n], i) {
      assert PacketShape(x, y, log, i) && log[..n][..i] == log[..i];
    }
  }

  lemma HasGrows(log: seq<Packet>, p: Packet, t: MessageType)
    ensures Has(log + [p], t) <==> Has(log, t) || p.mtype == t
  {
    var all := log + [p];
    if Has(log, t) {
      var i :| 0 <= i < |log| && log[i].mtype == t;
      assert all[i].mtype == t;
    }
    assert all[|log|] == p;
    assert forall i :: 0 <= i < |log| ==> all[i] == log[i];
  }

  // ---- One side against the log it has received ------------------------------

  ghost predicate Active(l: Local) { l.link.Some? && Usable(l.link.value) }

  /** The state a registered peer has after its frames `log` were received. */
  ghost function Expected(x: AppConfig, y: AppConfig, log: seq<Packet>): ConnectionState {
    if log == [] || y.deviceId == "" then CONNECTED
    else if x.requireAuth && !(Has(log, AUTH_RESPONSE) && Accepted(x, y)) then AUTHENTICATING
    else AUTHENTICATED
  }

  /** Side `x` after it received `log`, for any two configurations. A connection that still transmits has met an
      honest peer, has asked if it must, has answered if it was asked, and has accepted what it was answered. */
  ghost predicate LinkOk(x: AppConfig, y: AppConfig, l: Local, log: seq<Packet>) {
    && LogShape(x, y, l.sent)
    && (l.link.Some? ==> l.peer.Some? && l.peer.value.state == Expected(x, y, log))
    && (Active(l) ==> Open(x, y, l.sent, log))
  }

  ghost predicate Open(x: AppConfig, y: AppConfig, sent: seq<Packet>, log: seq<Packet>) {
    && sent != []
    && (log != [] ==> y.deviceId != "")
    && (x.requireAuth && log != [] ==> Has(sent, AUTH_REQUEST))
    && (Has(log, AUTH_REQUEST) ==> Has(sent, AUTH_RESPONSE))
    && (Has(log, AUTH_RESPONSE) ==> Accepted(x, y))
  }

  /** An honest HELLO is valid exactly when it names a device. */
  lemma HonestHello(cfg: AppConfig)
    ensures ValidHello(HelloPacket(cfg)) <==> cfg.deviceId != ""
  {
    hide SessionJson.HelloPayload, SessionJson.Garbled, SessionJson.ExtractStr;
    SessionJson.HelloRead(cfg.deviceId, cfg.displayName, cfg.platform, cfg.listenPort);
    SessionJson.GarbledLength(cfg.deviceId);
    GarbledEmpty();
  }

  lemma GarbledEmpty()
    ensures SessionJson.Garbled("") == ""
  {}

  /** An honest answer is accepted exactly when it survives the printer and the scanner. */
  lemma HonestAnswer(x: AppConfig, y: AppConfig)
    ensures Accepts(x, AuthResponsePacket(y)) <==>
      x.pskHash == "" || SessionJson.Garbled(ResponseText(y)) == x.pskHash
  {
    hide SessionJson.AuthResponsePayload, SessionJson.Garbled;
    SessionJson.AuthResponseRead(ResponseText(y), y.deviceId);
  }

  lemma OpenGrows(x: AppConfig, y: AppConfig, sent: seq<Packet>, log: seq<Packet>, p: Packet)
    requires Open(x, y, sent, log)
    ensures Open(x, y, sent + [p], log)
  {
    HasGrows(sent, p, AUTH_REQUEST);
    HasGrows(sent, p, AUTH_RESPONSE);
    hide Has, Accepted;
  }

  lemma PutKeeps(x: AppConfig, y: AppConfig, l: Local, log: seq<Packet>, p: Packet)
    requires LinkOk(x, y, l, log)
    requires Active(l) ==> MayFollow(x, y, l.sent, p)
    ensures LinkOk(x, y, Put(l, p), log)
  {
    hide Expected, LogShape, Open, MayFollow;
    if Active(l) {
      ShapeGrows(x, y, l.sent, p);
      OpenGrows(x, y, l.sent, log, p);
    } else {
      assert l.sent + [] == l.sent;
    }
  }

  /** Frames whose types the handshake does not care about. */
  predicate Neutral(p: Packet) { p.mtype !in {HELLO, AUTH_REQUEST, AUTH_RESPONSE, CHAT_MESSAGE} }

  lemma NeutralKeeps(x: AppConfig, y: AppConfig, l: Local, log: seq<Packet>, p: Packet)
    requires LinkOk(x, y, l, log) && Neutral(p)
    ensures LinkOk(x, y, Put(l, p), log)
  {
    hide Expected, LogShape, Has, Accepted;
    PutKeeps(x, y, l, log, p);
  }

  /** A connection that hangs up need not be open any more. */
  lemma HangKeeps(x: AppConfig, y: AppConfig, l: Local, log: seq<Packet>, more: seq<Packet>, reason: string)
    requires LinkOk(x, y, l, log) && Expected(x, y, more) == Expected(x, y, log)
    ensures LinkOk(x, y, Hang(l, reason), more)
  {
    hide Expected, LogShape, Open, Put;
    if l.link.Some? {
      NeutralKeeps(x, y, l, log, Packet(DISCONNECT, reason));
      SameLink(l, Packet(DISCONNECT, reason));
    }
  }

  lemma SameLink(l: Local, p: Packet)
    ensures Put(l, p).link == l.link && Put(l, p).peer == l.peer && l.sent <= Put(l, p).sent
  {}

  /** A chat leaves only a side that has answered the other's request. */
  lemma ChatMayFollow(x: AppConfig, y: AppConfig, l: Local, log: seq<Packet>, p: Packet)
    requires LinkOk(x, y, l, log) && LogShape(y, x, log) && p.mtype == CHAT_MESSAGE
    requires Active(l) && Authenticated(l)
    ensures MayFollow(x, y, l.sent, p)
  {
    hide HelloPacket, AuthResponsePacket, Accepted;
    if x.requireAuth {
      var i :| 0 <= i < |log| && log[i].mtype == AUTH_RESPONSE;
      assert PacketShape(y, x, log, i);
      if y.requireAuth {
        var j :| 0 <= j < i && log[..i][j].mtype == AUTH_REQUEST;
        assert log[j].mtype == AUTH_REQUEST;
      }
    }
  }

  lemma OwnKeeps(x: AppConfig, y: AppConfig, l: Local, log: seq<Packet>, e: LocalEvent)
    requires LinkOk(x, y, l, log) && LogShape(y, x, log) && !e.Adopt? && !e.Receive?
    ensures LinkOk(x, y, LocalStep(x, l, e), log)
  {
    OwnCases(x, l, e);
    NeutralAre();
    hide *;
    match e
    case Say(m) => SayKeeps(x, y, l, log, m);
    case SayTo(_, m) => SayKeeps(x, y, l, log, m);
    case Ping =>
      NeutralKeeps(x, y, l, log, PingPacket());
      ClosedKeeps(x, y, l, Forgotten(l), log);
    case Drop => ClosedKeeps(x, y, l, Forgotten(l), log);
    case Shut =>
      HangKeeps(x, y, l, log, log, SessionStopped());
      ClosedKeeps(x, y, Hang(l, SessionStopped()), OnShut(l), log);
    case Break => BrokenKeeps(x, y, l, log);
    case Close(reason) => HangKeeps(x, y, l, log, log, reason);
    case _ =>
  }

  lemma OwnCases(cfg: AppConfig, l: Local, e: LocalEvent)
    requires !e.Adopt? && !e.Receive?
    ensures var l' := LocalStep(cfg, l, e);
      match e
      case Say(m) => l' == if Authenticated(l) then Put(l, ChatPacket(m)) else l
      case SayTo(_, m) => l' == l || (Authenticated(l) && l' == Put(l, ChatPacket(m)))
      case Ping => l' == Forgotten(l) || l' == Put(l, PingPacket())
      case Drop => l' == Forgotten(l)
      case Shut => l' == OnShut(l)
      case Break => l' == OnBreak(l)
      case Close(reason) => l' == Hang(l, reason)
      case _ => l' == l
    ensures Forgotten(l).link.None? && Forgotten(l).sent == l.sent
    ensures OnShut(l).link.None? && OnShut(l).sent == Hang(l, SessionStopped()).sent
  {
    hide Put, ChatPacket, PingPacket, Hang, SessionStopped;
  }

  lemma ClosedKeeps(x: AppConfig, y: AppConfig, l: Local, l': Local, log: seq<Packet>)
    requires LinkOk(x, y, l, log) && l'.link.None? && l'.sent == l.sent
    ensures LinkOk(x, y, l', log)
  {
    hide LogShape, Expected, Open;
  }

  lemma BrokenKeeps(x: AppConfig, y: AppConfig, l: Local, log: seq<Packet>)
    requires LinkOk(x, y, l, log)
    ensures LinkOk(x, y, OnBreak(l), log)
  {
    hide LogShape, Expected, Open;
  }

  lemma SayKeeps(x: AppConfig, y: AppConfig, l: Local, log: seq<Packet>, m: Message.ChatMessage)
    requires LinkOk(x, y, l, log) && LogShape(y, x, log)
    ensures Authenticated(l) ==> LinkOk(x, y, Put(l, ChatPacket(m)), log)
  {
    hide LinkOk, LogShape, MayFollow, Put, ChatPacket;
    if Authenticated(l) {
      ChatType(m);
      if Active(l) { ChatMayFollow(x, y, l, log, ChatPacket(m)); }
      PutKeeps(x, y, l, log, ChatPacket(m));
    }
  }

  lemma ChatType(m: Message.ChatMessage)
    ensures ChatPacket(m).mtype == CHAT_MESSAGE
  {}

  lemma AdoptKeeps(x: AppConfig, y: AppConfig, l: Local, broken: bool)
    requires l.sent == []
    ensures LinkOk(x, y, LocalStep(x, l, Adopt(broken)), [])
  {
    PacketTypes(x);
    hide HelloPacket, AuthResponsePacket, Accepted;
    var l' := LocalStep(x, l, Adopt(broken));
    assert l'.sent == (if broken then [] else [HelloPacket(x)]);
  }

  // ---- Receiving ----

  lemma ExpectedGrows(x: AppConfig, y: AppConfig, log: seq<Packet>, p: Packet)
    ensures log != [] && p.mtype != AUTH_RESPONSE ==> Expected(x, y, log + [p]) == Expected(x, y, log)
    ensures p.mtype == AUTH_RESPONSE && y.deviceId != "" && Accepted(x, y) ==>
      Expected(x, y, log + [p]) == AUTHENTICATED
    ensures log != [] && !Accepted(x, y) && x.requireAuth ==> Expected(x, y, log + [p]) == Expected(x, y, log)
    ensures log == [] && p.mtype != AUTH_RESPONSE && y.deviceId != "" ==>
      Expected(x, y, log + [p]) == if x.requireAuth then AUTHENTICATING else AUTHENTICATED
    ensures y.deviceId == "" ==> Expected(x, y, log + [p]) == Expected(x, y, log) == CONNECTED
  {
    hide Accepted;
    HasGrows(log, p, AUTH_RESPONSE);
  }

  /** The invariant is only weakened by more received frames of other types. */
  lemma LogGrows(x: AppConfig, y: AppConfig, l: Local, log: seq<Packet>, p: Packet)
    requires LinkOk(x, y, l, log) && log != []
    requires p.mtype != AUTH_RESPONSE && p.mtype != AUTH_REQUEST
    ensures LinkOk(x, y, l, log + [p])
  {
    hide LogShape, Expected, Has, Accepted;
    HasGrows(log, p, AUTH_REQUEST);
    HasGrows(log, p, AUTH_RESPONSE);
    ExpectedGrows(x, y, log, p);
  }

  lemma HelloKeeps(x: AppConfig, y: AppConfig, l: Local, p: Packet)
    requires LinkOk(x, y, l, []) && p == HelloPacket(y)
    ensures LinkOk(x, y, OnHello(x, l, p), [p])
  {
    PacketTypes(y);
    HonestHello(y);
    ExpectedGrows(x, y, [], p);
    assert [] + [p] == [p];
    hide LogShape, HelloPacket, Expected, ValidHello, Introduced, Hang, LinkOk, SessionJson.ExtractStr;
    if y.deviceId == "" {
      HangKeeps(x, y, l, [], [p], InvalidHello());
    } else {
      IntroducedKeeps(x, y, l, p, PeerOf(l).(
        deviceId := SessionJson.ExtractStr(p.payload, "device_id"),
        displayName := SessionJson.ExtractStr(p.payload, "display_name"),
        platform := SessionJson.ExtractStr(p.payload, "platform")));
    }
  }

  lemma IntroducedKeeps(x: AppConfig, y: AppConfig, l: Local, p: Packet, who: PeerInfo)
    requires LinkOk(x, y, l, []) && p.mtype == HELLO && y.deviceId != ""
    requires Expected(x, y, [p]) == if x.requireAuth then AUTHENTICATING else AUTHENTICATED
    ensures LinkOk(x, y, Introduced(x, l, who), [p])
  {
    PacketTypes(x);
    hide LogShape, AuthRequestPacket, AuthResponsePacket, HelloPacket, Expected, Accepted;
    HasGrows([], p, AUTH_REQUEST);
    HasGrows([], p, AUTH_RESPONSE);
    assert [] + [p] == [p];
    if x.requireAuth && Active(l) {
      var q := AuthRequestPacket(x, who.deviceId);
      ShapeGrows(x, y, l.sent, q);
      HasGrows(l.sent, q, AUTH_REQUEST);
    } else {
      assert l.sent + [] == l.sent;
    }
  }

  lemma RequestKeeps(x: AppConfig, y: AppConfig, l: Local, log: seq<Packet>, p: Packet)
    requires LinkOk(x, y, l, log) && log != [] && p.mtype == AUTH_REQUEST && y.requireAuth && x.deviceId != ""
    ensures LinkOk(x, y, Put(l, AuthResponsePacket(x)), log + [p])
  {
    PacketTypes(x);
    ExpectedGrows(x, y, log, p);
    HasGrows(log, p, AUTH_REQUEST);
    HasGrows(log, p, AUTH_RESPONSE);
    hide LogShape, AuthResponsePacket, HelloPacket, Expected, Accepted, Has;
    var q := AuthResponsePacket(x);
    if Active(l) {
      ShapeGrows(x, y, l.sent, q);
      HasGrows(l.sent, q, AUTH_REQUEST);
      HasGrows(l.sent, q, AUTH_RESPONSE);
    } else {
      assert l.sent + [] == l.sent;
    }
  }

  lemma PacketTypes(cfg: AppConfig)
    ensures AuthResponsePacket(cfg).mtype == AUTH_RESPONSE && HelloPacket(cfg).mtype == HELLO
    ensures forall id :: AuthRequestPacket(cfg, id).mtype == AUTH_REQUEST
    ensures AuthOkPacket().mtype == AUTH_OK && AuthFailPacket().mtype == AUTH_FAIL
    ensures PingPacket().mtype == PING && PongPacket().mtype == PONG
  {
    hide SessionJson.HelloPayload, SessionJson.AuthRequestPayload, SessionJson.AuthResponsePayload;
  }

  lemma AnswerKeeps(x: AppConfig, y: AppConfig, l: Local, log: seq<Packet>, p: Packet)
    requires LinkOk(x, y, l, log) && log != [] && p == AuthResponsePacket(y) && p.mtype == AUTH_RESPONSE
    requires x.requireAuth && y.deviceId != ""
    ensures LinkOk(x, y, OnAuthResponse(x, l, p), log + [p])
  {
    ExpectedGrows(x, y, log, p);
    AnswerCases(x, l, p);
    FailType();
    assert Accepts(x, p) <==> Accepted(x, y);
    hide *;
    if l.link.None? {
      NoLinkKeeps(x, y, l, log, log + [p]);
    } else if Accepts(x, p) {
      var info := PeerOf(l).(state := AUTHENTICATED);
      AcceptedKeeps(x, y, l, log, p, info);
      NeutralAre();
      NeutralKeeps(x, y, l.(peer := Some(info), notes := l.notes + [Up(info)]), log + [p], AuthOkPacket());
    } else {
      NeutralAre();
      NeutralKeeps(x, y, l, log, AuthFailPacket());
      HangKeeps(x, y, Put(l, AuthFailPacket()), log, log + [p], AuthFailed());
    }
  }

  lemma NeutralAre()
    ensures Neutral(AuthOkPacket()) && Neutral(AuthFailPacket()) && Neutral(PongPacket()) && Neutral(PingPacket())
  {}

  lemma NoLinkKeeps(x: AppConfig, y: AppConfig, l: Local, log: seq<Packet>, more: seq<Packet>)
    requires LinkOk(x, y, l, log) && l.link.None?
    ensures LinkOk(x, y, l, more)
  {
    hide LogShape;
  }

  lemma AnswerCases(cfg: AppConfig, l: Local, p: Packet)
    ensures OnAuthResponse(cfg, l, p) ==
      if l.link.None? then l
      else if Accepts(cfg, p) then
        var info := PeerOf(l).(state := AUTHENTICATED);
        Put(l.(peer := Some(info), notes := l.notes + [Up(info)]), AuthOkPacket())
      else Hang(Put(l, AuthFailPacket()), AuthFailed())
  {
    hide Put, Hang, Accepts, AuthOkPacket, AuthFailPacket, AuthFailed;
  }

  lemma AcceptedKeeps(x: AppConfig, y: AppConfig, l: Local, log: seq<Packet>, p: Packet, info: PeerInfo)
    requires LinkOk(x, y, l, log) && log != [] && p.mtype == AUTH_RESPONSE && Accepted(x, y)
    requires info.state == AUTHENTICATED == Expected(x, y, log + [p])
    ensures LinkOk(x, y, l.(peer := Some(info), notes := l.notes + [Up(info)]), log + [p])
  {
    hide LogShape, Expected, Accepted, Has;
    HasGrows(log, p, AUTH_REQUEST);
  }

  lemma ReceiveKeeps(x: AppConfig, y: AppConfig, l: Local, log: seq<Packet>, p: Packet)
    requires LinkOk(x, y, l, log) && LogShape(y, x, log + [p])
    ensures LinkOk(x, y, LocalStep(x, l, Receive(p)), log + [p])
  {
    hide *;
    FirstIsHello(y, x, log, p);
    ReceiveIsOnPacket(x, l, p);
    PacketCases(x, l, p);
    if log == [] {
      HelloKeeps(x, y, l, p);
      assert log + [p] == [p];
    } else if p.mtype == AUTH_REQUEST {
      RequestKeeps(x, y, l, log, p);
    } else if p.mtype == AUTH_RESPONSE {
      AnswerKeeps(x, y, l, log, p);
    } else {
      LogGrows(x, y, l, log, p);
      OtherKeeps(x, y, l, log + [p]);
    }
  }

  /** The remaining frames make the receiver send nothing but PONG or DISCONNECT. */
  lemma OtherKeeps(x: AppConfig, y: AppConfig, l: Local, log: seq<Packet>)
    requires LinkOk(x, y, l, log)
    ensures LinkOk(x, y, Put(l, PongPacket()), log) && LinkOk(x, y, Hang(l, DisconnectRequested()), log)
  {
    hide *;
    NeutralAre();
    NeutralKeeps(x, y, l, log, PongPacket());
    HangKeeps(x, y, l, log, log, DisconnectRequested());
  }

  lemma FirstIsHello(y: AppConfig, x: AppConfig, log: seq<Packet>, p: Packet)
    requires LogShape(y, x, log + [p])
    ensures p.mtype == HELLO ==> log == []
    ensures log == [] ==> p == HelloPacket(y) && p.mtype == HELLO
    ensures p.mtype == AUTH_REQUEST ==> y.requireAuth && x.deviceId != ""
    ensures p.mtype == AUTH_RESPONSE ==> p == AuthResponsePacket(y) && x.requireAuth && y.deviceId != ""
  {
    PacketTypes(y);
    hide Has, HelloPacket, AuthResponsePacket, Accepted;
    assert (log + [p])[|log|] == p && PacketShape(y, x, log + [p], |log|);
  }

  // ---- What an event puts on the wire ----------------------------------------

  lemma ReceiveIsOnPacket(cfg: AppConfig, l: Local, p: Packet)
    ensures LocalStep(cfg, l, Receive(p)) == OnPacket(cfg, l, p)
  {
    hide OnPacket;
  }

  lemma FailType()
    ensures AuthFailPacket().mtype == AUTH_FAIL && AuthOkPacket().mtype == AUTH_OK
  {}

  lemma PacketCases(cfg: AppConfig, l: Local, p: Packet)
    ensures var l' := OnPacket(cfg, l, p);
      if p.mtype == HELLO then l' == OnHello(cfg, l, p)
      else if p.mtype == AUTH_REQUEST then l' == Put(l, AuthResponsePacket(cfg))
      else if p.mtype == AUTH_RESPONSE then l' == OnAuthResponse(cfg, l, p)
      else if p.mtype == PING then l' == Put(l, PongPacket())
      else if p.mtype == DISCONNECT then l' == Hang(l, DisconnectRequested())
      else l' == l
  {
    hide OnHello, Put, Hang, OnAuthResponse, AuthResponsePacket, PongPacket, DisconnectRequested;
  }

  /** More frames on a wire, chats among them only if `chat`. */
  ghost predicate Grows(before: seq<Packet>, after: seq<Packet>, chat: bool) {
    before <= after && forall i :: |before| <= i < |after| && after[i].mtype == CHAT_MESSAGE ==> chat
  }

  lemma PutGrows(before: seq<Packet>, l: Local, p: Packet, chat: bool)
    requires Grows(before, l.sent, chat) && (p.mtype == CHAT_MESSAGE ==> chat)
    ensures Grows(before, Put(l, p).sent, chat)
  {}

  lemma HangGrows(before: seq<Packet>, l: Local, reason: string)
    requires Grows(before, l.sent, false)
    ensures Grows(before, Hang(l, reason).sent, false)
  {
    hide Put, Grows;
    PutGrows(before, l, Packet(DISCONNECT, reason), false);
  }

  /** An event only adds to the wire, and only a broadcast or sendTo adds a chat. */
  lemma StepGrows(cfg: AppConfig, l: Local, e: LocalEvent)
    ensures Grows(l.sent, LocalStep(cfg, l, e).sent, e.Say? || e.SayTo?)
  {
    NothingSent(l);
    hide Grows, OnPacket, OnAdopt, OnSay, OnSayTo, OnPing, OnShut, OnBreak, Hang, Forgotten;
    match e
    case Adopt(broken) => AdoptGrows(cfg, l, broken);
    case Receive(p) => PacketGrows(cfg, l, p);
    case Say(m) => SayGrows(cfg, l, "", m);
    case SayTo(peerId, m) => SayGrows(cfg, l, peerId, m);
    case Ping => PingGrows(cfg, l);
    case Shut => ShutGrows(cfg, l);
    case Close(reason) => HangGrows(l.sent, l, reason);
    case _ =>
  }

  lemma NothingSent(l: Local)
    ensures Grows(l.sent, l.sent, true) && Grows(l.sent, l.sent, false)
    ensures Forgotten(l).sent == l.sent && OnBreak(l).sent == l.sent
  {}

  lemma AdoptGrows(cfg: AppConfig, l: Local, broken: bool)
    ensures Grows(l.sent, OnAdopt(cfg, l, broken).sent, false)
  {
    NothingSent(l);
    hide AuthResponsePacket, HelloPacket, Grows, Put;
    PacketTypes(cfg);
    var added := l.(link := Some(Link(true, broken)), peer := Some(NEW_PEER), notes := l.notes + [Added]);
    PutGrows(l.sent, added, HelloPacket(cfg), false);
  }

  lemma SayGrows(cfg: AppConfig, l: Local, peerId: string, m: Message.ChatMessage)
    ensures Grows(l.sent, OnSay(l, m).sent, true) && Grows(l.sent, OnSayTo(l, peerId, m).sent, true)
  {
    NothingSent(l);
    hide ChatPacket, Grows, Put;
    PutGrows(l.sent, l, ChatPacket(m), true);
  }

  lemma PingGrows(cfg: AppConfig, l: Local)
    ensures Grows(l.sent, OnPing(l).sent, false)
  {
    NothingSent(l);
    hide AuthResponsePacket, PingPacket, Grows, Put, Forgotten;
    PacketTypes(cfg);
    PutGrows(l.sent, l, PingPacket(), false);
  }

  lemma ShutGrows(cfg: AppConfig, l: Local)
    ensures Grows(l.sent, OnShut(l).sent, false)
  {
    NothingSent(l);
    hide SessionStopped, Grows, Hang;
    HangGrows(l.sent, l, SessionStopped());
  }

  lemma PacketGrows(cfg: AppConfig, l: Local, p: Packet)
    ensures Grows(l.sent, OnPacket(cfg, l, p).sent, false)
  {
    NothingSent(l);
    PacketTypes(cfg);
    PacketCases(cfg, l, p);
    hide *;
    if p.mtype == HELLO { HelloGrows(cfg, l, p); }
    else if p.mtype == AUTH_REQUEST { PutGrows(l.sent, l, AuthResponsePacket(cfg), false); }
    else if p.mtype == AUTH_RESPONSE { AnswerGrows(cfg, l, p); }
    else if p.mtype == PING { PutGrows(l.sent, l, PongPacket(), false); }
    else if p.mtype == DISCONNECT { HangGrows(l.sent, l, DisconnectRequested()); }
  }

  lemma HelloGrows(cfg: AppConfig, l: Local, p: Packet)
    ensures Grows(l.sent, OnHello(cfg, l, p).sent, false)
  {
    NothingSent(l);
    hide Grows, Hang, InvalidHello, ValidHello, Introduced, SessionJson.ExtractStr;
    HangGrows(l.sent, l, InvalidHello());
    IntroducedGrows(cfg, l, PeerOf(l).(
      deviceId := SessionJson.ExtractStr(p.payload, "device_id"),
      displayName := SessionJson.ExtractStr(p.payload, "display_name"),
      platform := SessionJson.ExtractStr(p.payload, "platform")));
  }

  lemma IntroducedGrows(cfg: AppConfig, l: Local, who: PeerInfo)
    ensures Grows(l.sent, Introduced(cfg, l, who).sent, false)
  {
    NothingSent(l);
    PacketTypes(cfg);
    hide Grows, Put, AuthRequestPacket, AuthResponsePacket, HelloPacket;
    PutGrows(l.sent, l.(peer := Some(who.(state := AUTHENTICATING))), AuthRequestPacket(cfg, who.deviceId), false);
  }

  lemma AnswerGrows(cfg: AppConfig, l: Local, p: Packet)
    ensures Grows(l.sent, OnAuthResponse(cfg, l, p).sent, false)
  {
    NothingSent(l);
    FailType();
    hide Grows, Put, Hang, Accepts, AuthOkPacket, AuthFailPacket, AuthFailed, AuthResponsePacket;
    var info := PeerOf(l).(state := AUTHENTICATED);
    PutGrows(l.sent, l.(peer := Some(info), notes := l.notes + [Up(info)]), AuthOkPacket(), false);
    PutGrows(l.sent, l, AuthFailPacket(), false);
    HangGrows(l.sent, Put(l, AuthFailPacket()), AuthFailed());
  }

  // ---- What an open connection answers ----------------------------------------

  lemma Connected(cfg: AppConfig, y: End)
    ensures EndStep(Fresh(cfg), y, Connect(false)) ==
      End(cfg, Local(Some(Link(true, false)), Some(NEW_PEER), [HelloPacket(cfg)], [Added]), true, 0, [])
  {
    hide HelloPacket;
  }

  /** What an open connection sends and becomes on the frames of the handshake. */
  lemma HelloAnswer(cfg: AppConfig, l: Local, p: Packet)
    requires Active(l) && ValidHello(p)
    ensures var l' := LocalStep(cfg, l, Receive(p));
      && l'.link == l.link && l'.peer.Some?
      && (if cfg.requireAuth
          then |l'.sent| == |l.sent| + 1 && l.sent <= l'.sent && l'.sent[|l.sent|].mtype == AUTH_REQUEST
          else l'.sent == l.sent && Authenticated(l'))
  {
    hide SessionJson.ExtractStr, Hang, SessionJson.AuthRequestPayload;
  }

  lemma RequestAnswer(cfg: AppConfig, l: Local, p: Packet)
    requires Active(l) && p.mtype == AUTH_REQUEST
    ensures var l' := LocalStep(cfg, l, Receive(p));
      l'.link == l.link && l'.sent == l.sent + [AuthResponsePacket(cfg)]
  {
    hide AuthResponsePacket;
  }

  lemma AcceptedAnswer(cfg: AppConfig, l: Local, p: Packet)
    requires Active(l) && p.mtype == AUTH_RESPONSE && Accepts(cfg, p)
    ensures var l' := LocalStep(cfg, l, Receive(p));
      l'.link == l.link && l'.sent == l.sent + [AuthOkPacket()] && Authenticated(l')
  {
    hide Accepts, AuthOkPacket;
  }

  // ---- The two-party invariant -----------------------------------------------

  function ChatOf(p: Packet): seq<Message.ChatMessage> {
    if p.mtype != CHAT_MESSAGE then []
    else match Message.FromJson(p.payload)
      case None => []
      case Some(m) => [m]
  }

  /** The chats in a log of frames, in order. */
  function ChatsIn(log: seq<Packet>): seq<Message.ChatMessage> {
    if log == [] then [] else ChatsIn(log[..|log| - 1]) + ChatOf(log[|log| - 1])
  }

  /** Whoever is held authenticated has named itself, and has given an accepted answer if one was required. */
  ghost predicate Earned(x: AppConfig, y: AppConfig, l: Local, log: seq<Packet>) {
    Authenticated(l) ==> y.deviceId != "" && (x.requireAuth ==> Accepted(x, y) && Has(log, AUTH_RESPONSE))
  }

  /** Side `x` against what it has received from `y`, for any two configurations. */
  ghost predicate Half(x: End, y: End) {
    && x.read <= |y.local.sent|
    && (!x.added ==> x.read == 0 && x.local == UNKNOWN_ID && x.heard == [])
    && LinkOk(x.cfg, y.cfg, x.local, y.local.sent[..x.read])
    && Earned(x.cfg, y.cfg, x.local, y.local.sent[..x.read])
  }

  ghost predicate Inv(d: Duo) { Half(d.a, d.b) && Half(d.b, d.a) }

  lemma SentGrows(cfg: AppConfig, l: Local, e: LocalEvent)
    ensures l.sent <= LocalStep(cfg, l, e).sent
  {
    hide LocalStep;
    StepGrows(cfg, l, e);
  }

  lemma OtherHalfKept(y: End, x: End, x': End)
    requires Half(y, x) && x.local.sent <= x'.local.sent && x'.cfg == x.cfg
    ensures Half(y, x')
  {
    hide LinkOk, Earned;
    assert x'.local.sent[..y.read] == x.local.sent[..y.read];
  }

  lemma EarnedStep(x: AppConfig, y: AppConfig, l: Local, e: LocalEvent, log: seq<Packet>)
    requires Earned(x, y, l, log) && (e.Receive? ==> LogShape(y, x, log + [e.packet]))
    ensures Earned(x, y, LocalStep(x, l, e), if e.Receive? then log + [e.packet] else log)
  {
    hide LocalStep, Accepted, LogShape, ValidHello, HelloPacket, AuthResponsePacket;
    SessionHistory.DecisionStep(x, l, e);
    if e.Receive? {
      HasGrows(log, e.packet, AUTH_RESPONSE);
      FirstIsHello(y, x, log, e.packet);
      HonestHello(y);
      HelloHasType(e.packet);
      AcceptsIs(x, y, e.packet);
    }
  }

  lemma HelloHasType(p: Packet)
    ensures ValidHello(p) ==> p.mtype == HELLO
  {
    hide SessionJson.ExtractStr;
  }

  lemma AcceptsIs(x: AppConfig, y: AppConfig, p: Packet)
    ensures p == AuthResponsePacket(y) && Accepts(x, p) ==> Accepted(x, y)
  {
    hide Accepts, AuthResponsePacket;
  }

  lemma DeliverKeepsHalf(x: End, y: End)
    requires Half(x, y) && LogShape(y.cfg, x.cfg, y.local.sent) && Deliverable(x, y)
    ensures Half(EndStep(x, y, Deliver), y)
  {
    hide LinkOk, LogShape, LocalStep, Heard, Earned;
    var log, p := y.local.sent[..x.read], y.local.sent[x.read];
    var x' := EndStep(x, y, Deliver);
    assert y.local.sent[..x'.read] == log + [p];
    ShapeOfPrefix(y.cfg, x.cfg, y.local.sent, x'.read);
    ReceiveKeeps(x.cfg, y.cfg, x.local, log, p);
    EarnedStep(x.cfg, y.cfg, x.local, Receive(p), log);
  }

  lemma OwnKeepsHalf(x: End, y: End, e: LocalEvent)
    requires Half(x, y) && LogShape(y.cfg, x.cfg, y.local.sent) && !e.Adopt? && !e.Receive?
    ensures Half(EndStep(x, y, Own(e)), y)
  {
    hide LinkOk, LogShape, LocalStep, Earned;
    ShapeOfPrefix(y.cfg, x.cfg, y.local.sent, x.read);
    OwnKeeps(x.cfg, y.cfg, x.local, y.local.sent[..x.read], e);
    EarnedStep(x.cfg, y.cfg, x.local, e, y.local.sent[..x.read]);
    NothingOwn(x.cfg, e);
  }

  /** Nothing happens on a connection that was never added. */
  lemma NothingOwn(cfg: AppConfig, e: LocalEvent)
    requires !e.Adopt? && !e.Receive?
    ensures LocalStep(cfg, UNKNOWN_ID, e) == UNKNOWN_ID
  {}

  lemma ConnectKeepsHalf(x: End, y: End, broken: bool)
    requires Half(x, y)
    ensures Half(EndStep(x, y, Connect(broken)), y)
  {
    hide LinkOk, LocalStep, Earned;
    if !x.added {
      AdoptKeeps(x.cfg, y.cfg, x.local, broken);
      EarnedStep(x.cfg, y.cfg, x.local, Adopt(broken), []);
      assert y.local.sent[..0] == [];
    }
  }

  lemma EndStepKeeps(x: End, y: End, a: Act)
    requires Half(x, y) && Half(y, x)
    ensures var x' := EndStep(x, y, a); x'.cfg == x.cfg && Half(x', y) && Half(y, x')
  {
    hide Half, LocalStep, Heard, LogShape;
    HalfShape(y, x);
    var x' := EndStep(x, y, a);
    match a {
      case Connect(broken) => ConnectKeepsHalf(x, y, broken); SentGrows(x.cfg, x.local, Adopt(broken));
      case Deliver =>
        if Deliverable(x, y) {
          DeliverKeepsHalf(x, y);
          SentGrows(x.cfg, x.local, Receive(y.local.sent[x.read]));
        }
      case Own(e) =>
        if Possible(x.cfg, e) { OwnKeepsHalf(x, y, e); SentGrows(x.cfg, x.local, e); }
    }
    OtherHalfKept(y, x, x');
  }

  lemma HalfShape(x: End, y: End)
    requires Half(x, y)
    ensures LogShape(x.cfg, y.cfg, x.local.sent)
  {
    hide LogShape, Expected, Open, Earned;
  }

  /** The invariant holds in every run of any two sessions, whatever the users and the network do. */
  lemma {:induction false} RunKeeps(ca: AppConfig, cb: AppConfig, moves: seq<Move>)
    ensures Inv(Run(ca, cb, moves))
  {
    hide Half, EndStep;
    if moves == [] {
      FreshHalf(ca, cb);
      FreshHalf(cb, ca);
    } else {
      var k := |moves| - 1;
      RunKeeps(ca, cb, moves[..k]);
      var d := Run(ca, cb, moves[..k]);
      match moves[k]
      case MoveA(act) => EndStepKeeps(d.a, d.b, act);
      case MoveB(act) => EndStepKeeps(d.b, d.a, act);
    }
  }

  lemma FreshHalf(x: AppConfig, y: AppConfig)
    ensures Half(Fresh(x), Fresh(y))
  {}

  // ---- Nothing dropped -------------------------------------------------------

  /** While the connection is registered, the callback has received every well-formed chat that arrived. */
  ghost predicate NothingLost(x: End, y: End) {
    x.local.link.Some? && x.read <= |y.local.sent| ==> x.heard == ChatsIn(y.local.sent[..x.read])
  }

  /** The next frame of a registered connection is a chat. */
  ghost predicate ChatNext(x: End, y: End) {
    Deliverable(x, y) && x.local.link.Some? && y.local.sent[x.read].mtype == CHAT_MESSAGE
  }

  /** The configurations under which no chat frame can arrive before its sender is authenticated. Without
      authentication both sides name themselves or neither does; if only one asks for it, that side does not name
      itself and so is never chatted to; if both do, each accepts the other's answer or neither does. */
  predicate ChatsSafe(ca: AppConfig, cb: AppConfig) {
    if !ca.requireAuth && !cb.requireAuth then (ca.deviceId == "") == (cb.deviceId == "")
    else if !ca.requireAuth then cb.deviceId == ""
    else if !cb.requireAuth then ca.deviceId == ""
    else ca.deviceId == "" || cb.deviceId == "" || (Accepted(ca, cb) <==> Accepted(cb, ca))
  }

  lemma SafeSymmetric(ca: AppConfig, cb: AppConfig)
    ensures ChatsSafe(ca, cb) <==> ChatsSafe(cb, ca)
  {
    hide Accepted;
  }

  /** The configurations under which no well-formed chat can be lost: a side without a name is never heard anyway,
      and never chatted to; otherwise both ask for authentication or neither does, and each accepts the other's
      answer or neither does. */
  predicate ChatsKept(ca: AppConfig, cb: AppConfig) {
    || ca.deviceId == "" || cb.deviceId == ""
    || (ca.requireAuth == cb.requireAuth && (ca.requireAuth ==> (Accepted(ca, cb) <==> Accepted(cb, ca))))
  }

  lemma KeptSymmetric(ca: AppConfig, cb: AppConfig)
    ensures ChatsKept(ca, cb) <==> ChatsKept(cb, ca)
    ensures ChatsSafe(ca, cb) ==> ChatsKept(ca, cb)
    ensures ChatsKept(ca, cb) && ca.deviceId != "" && cb.deviceId != "" ==> ChatsSafe(ca, cb)
  {
    hide Accepted;
  }

  /** A chat reaches a registered connection only after its sender was authenticated there. */
  lemma ChatFindsAuthenticated(x: End, y: End)
    requires ChatsSafe(x.cfg, y.cfg) && Half(x, y) && LogShape(y.cfg, x.cfg, y.local.sent) && ChatNext(x, y)
    ensures Authenticated(x.local)
  {
    hide HelloPacket, AuthResponsePacket, ChatsIn, Accepted, Has;
    var log := y.local.sent;
    assert PacketShape(y.cfg, x.cfg, log, x.read);
    PacketTypes(y.cfg);
    assert x.read > 0 && log[..x.read] != [];
  }

  lemma LinkKept(cfg: AppConfig, l: Local, p: Packet)
    ensures LocalStep(cfg, l, Receive(p)).link.Some? <==> l.link.Some?
  {
    hide AuthRequestPacket, AuthResponsePacket, AuthOkPacket, AuthFailPacket, PongPacket, Accepts, ValidHello,
      InvalidHello, AuthFailed, DisconnectRequested, SessionJson.ExtractStr, Transmit;
  }

  lemma NoNewLink(cfg: AppConfig, l: Local, e: LocalEvent)
    requires !e.Adopt? && !e.Receive?
    ensures LocalStep(cfg, l, e).link.Some? ==> l.link.Some?
  {
    hide ChatPacket, Transmit;
  }

  /** No side says a well-formed chat without a name. */
  ghost predicate Nameless(cfg: AppConfig, log: seq<Packet>) {
    cfg.deviceId == "" ==> forall i :: 0 <= i < |log| ==> ChatOf(log[i]) == []
  }

  /** The chats that an event of the user puts on the wire are its own. */
  lemma SaysOnly(cfg: AppConfig, l: Local, e: LocalEvent)
    requires e.Say? || e.SayTo?
    ensures var after := LocalStep(cfg, l, e).sent; after == l.sent || after == l.sent + [ChatPacket(e.msg)]
  {
    hide ChatPacket;
    assert l.sent + [] == l.sent;
  }

  lemma NamelessStep(x: End, y: End, a: Act)
    requires Nameless(x.cfg, x.local.sent)
    ensures Nameless(x.cfg, EndStep(x, y, a).local.sent)
  {
    hide LocalStep, ChatOf, ChatPacket, Heard;
    match a {
      case Connect(broken) => NamelessGrows(x.cfg, x.local, Adopt(broken));
      case Deliver => if Deliverable(x, y) { NamelessGrows(x.cfg, x.local, Receive(y.local.sent[x.read])); }
      case Own(e) => if Possible(x.cfg, e) { NamelessGrows(x.cfg, x.local, e); }
    }
  }

  lemma NamelessGrows(cfg: AppConfig, l: Local, e: LocalEvent)
    requires Nameless(cfg, l.sent) && (e.Say? || e.SayTo? ==> Spoken(cfg, e.msg))
    ensures Nameless(cfg, LocalStep(cfg, l, e).sent)
  {
    hide LocalStep, ChatOf, ChatPacket;
    var after := LocalStep(cfg, l, e).sent;
    StepGrows(cfg, l, e);
    if e.Say? || e.SayTo? {
      SaysOnly(cfg, l, e);
      if cfg.deviceId == "" { UnnamedChat(e.msg); }
    } else {
      forall i | |l.sent| <= i < |after| ensures ChatOf(after[i]) == [] { OtherType(after[i]); }
    }
    assert forall i :: 0 <= i < |l.sent| ==> after[i] == l.sent[i];
  }

  lemma UnnamedChat(m: Message.ChatMessage)
    requires m.senderId == ""
    ensures ChatOf(ChatPacket(m)) == []
  {
    hide Message.FromJson, Message.ToJson;
    Message.RefusedExactly(m);
  }

  lemma OtherType(p: Packet)
    requires p.mtype != CHAT_MESSAGE
    ensures ChatOf(p) == []
  {}

  lemma DeliverLosesNothing(x: End, y: End)
    requires NothingLost(x, y) && Half(x, y) && Deliverable(x, y)
    requires ChatNext(x, y) ==> Authenticated(x.local) || ChatOf(y.local.sent[x.read]) == []
    ensures NothingLost(EndStep(x, y, Deliver), y)
  {
    hide LocalStep, LinkOk, Earned, Message.FromJson, Authenticated;
    var log, p := y.local.sent[..x.read], y.local.sent[x.read];
    assert y.local.sent[..x.read + 1] == log + [p] && (log + [p])[..x.read] == log;
    LinkKept(x.cfg, x.local, p);
    assert x.heard + [] == x.heard;
  }

  /** A chat that arrives is heard, or it was not well formed. */
  lemma ChatIsHeard(x: End, y: End)
    requires ChatsKept(x.cfg, y.cfg) && Half(x, y) && Half(y, x) && Nameless(y.cfg, y.local.sent) && ChatNext(x, y)
    ensures Authenticated(x.local) || ChatOf(y.local.sent[x.read]) == []
  {
    hide LinkOk, Earned, ChatOf, ChatsSafe, ChatsKept, LogShape;
    HalfShape(y, x);
    if y.cfg.deviceId != "" {
      ChatHasReader(x, y);
      KeptSymmetric(x.cfg, y.cfg);
      ChatFindsAuthenticated(x, y);
    }
  }

  lemma ChatHasReader(x: End, y: End)
    requires LogShape(y.cfg, x.cfg, y.local.sent) && ChatNext(x, y)
    ensures x.cfg.deviceId != ""
  {
    hide HelloPacket, AuthResponsePacket, Accepted, Has;
    assert PacketShape(y.cfg, x.cfg, y.local.sent, x.read);
  }

  lemma StepLosesNothing(x: End, y: End, a: Act)
    requires ChatsKept(x.cfg, y.cfg) && Half(x, y) && Half(y, x) && NothingLost(x, y) && NothingLost(y, x)
    requires Nameless(y.cfg, y.local.sent)
    ensures var x' := EndStep(x, y, a); NothingLost(x', y) && NothingLost(y, x')
  {
    hide LocalStep, LinkOk, Earned, Heard, ChatsIn, ChatsKept, LogShape, ChatOf, Nameless;
    match a {
      case Connect(broken) => SentGrows(x.cfg, x.local, Adopt(broken)); NoChats(y);
      case Deliver =>
        if Deliverable(x, y) {
          if ChatNext(x, y) { ChatIsHeard(x, y); }
          DeliverLosesNothing(x, y);
          SentGrows(x.cfg, x.local, Receive(y.local.sent[x.read]));
        }
      case Own(e) =>
        if Possible(x.cfg, e) {
          NoNewLink(x.cfg, x.local, e);
          SentGrows(x.cfg, x.local, e);
        }
    }
    var x' := EndStep(x, y, a);
    assert x'.local.sent[..y.read] == x.local.sent[..y.read];
  }

  lemma NoChats(y: End)
    ensures ChatsIn(y.local.sent[..0]) == []
  {}

  lemma {:induction false} RunNameless(ca: AppConfig, cb: AppConfig, moves: seq<Move>)
    ensures var d := Run(ca, cb, moves); Nameless(ca, d.a.local.sent) && Nameless(cb, d.b.local.sent)
  {
    hide Nameless, EndStep;
    if moves == [] {
      FreshNameless(ca);
      FreshNameless(cb);
    } else {
      var k := |moves| - 1;
      RunNameless(ca, cb, moves[..k]);
      RunConfigs(ca, cb, moves[..k]);
      var d := Run(ca, cb, moves[..k]);
      match moves[k]
      case MoveA(act) => NamelessStep(d.a, d.b, act);
      case MoveB(act) => NamelessStep(d.b, d.a, act);
    }
  }

  lemma FreshNameless(cfg: AppConfig)
    ensures Nameless(cfg, Fresh(cfg).local.sent)
  {}

  lemma {:induction false} RunLosesNothing(ca: AppConfig, cb: AppConfig, moves: seq<Move>)
    requires ChatsKept(ca, cb)
    ensures var d := Run(ca, cb, moves); NothingLost(d.a, d.b) && NothingLost(d.b, d.a)
  {
    hide NothingLost, EndStep, ChatsKept, Half, Nameless;
    if moves == [] {
      FreshLosesNothing(ca, cb);
      FreshLosesNothing(cb, ca);
    } else {
      var k := |moves| - 1;
      RunLosesNothing(ca, cb, moves[..k]);
      RunKeeps(ca, cb, moves[..k]);
      RunConfigs(ca, cb, moves[..k]);
      RunNameless(ca, cb, moves[..k]);
      KeptSymmetric(ca, cb);
      var d := Run(ca, cb, moves[..k]);
      match moves[k]
      case MoveA(act) => StepLosesNothing(d.a, d.b, act);
      case MoveB(act) => StepLosesNothing(d.b, d.a, act);
    }
  }

  lemma FreshLosesNothing(x: AppConfig, y: AppConfig)
    ensures NothingLost(Fresh(x), Fresh(y))
  {}

  // ---- Main results ----------------------------------------------------------

  /** In every run of two sessions with such configurations, whatever the users, the network
      failures and the disconnects do: while a side still has the connection, its message callback
      has received every well-formed chat that arrived, in order; none was dropped as unauthenticated. */
  lemma NoChatDropped(ca: AppConfig, cb: AppConfig, moves: seq<Move>)
    requires ChatsKept(ca, cb)
    ensures var d := Run(ca, cb, moves);
      && d.a.read <= |d.b.local.sent| && d.b.read <= |d.a.local.sent|
      && (d.a.local.link.Some? ==> d.a.heard == ChatsIn(d.b.local.sent[..d.a.read]))
      && (d.b.local.link.Some? ==> d.b.heard == ChatsIn(d.a.local.sent[..d.b.read]))
  {
    hide LinkOk, ChatsIn, ChatsKept;
    RunKeeps(ca, cb, moves);
    RunLosesNothing(ca, cb, moves);
  }

  /** Agreement: when the next frame of a registered connection is a chat, its sender is already
      held authenticated there. */
  lemma ChatArrivesAuthenticated(ca: AppConfig, cb: AppConfig, moves: seq<Move>)
    requires ChatsSafe(ca, cb)
    ensures var d := Run(ca, cb, moves);
      && (ChatNext(d.b, d.a) ==> Authenticated(d.b.local))
      && (ChatNext(d.a, d.b) ==> Authenticated(d.a.local))
  {
    hide Half, LogShape, ChatsSafe;
    RunKeeps(ca, cb, moves);
    RunConfigs(ca, cb, moves);
    var d := Run(ca, cb, moves);
    SafeSymmetric(ca, cb);
    HalfShape(d.a, d.b);
    HalfShape(d.b, d.a);
    if ChatNext(d.b, d.a) { ChatFindsAuthenticated(d.b, d.a); }
    if ChatNext(d.a, d.b) { ChatFindsAuthenticated(d.a, d.b); }
  }

  /** Every run of any two sessions in which both connections are still usable and both wires are
      drained ends with both sides authenticated. */
  lemma HandshakeSucceeds(ca: AppConfig, cb: AppConfig, moves: seq<Move>)
    ensures var d := Run(ca, cb, moves);
      && Active(d.a.local) && Active(d.b.local)
      && d.a.read == |d.b.local.sent| && d.b.read == |d.a.local.sent| ==>
        Authenticated(d.a.local) && Authenticated(d.b.local)
  {
    hide Accepted, LogShape, Half;
    RunKeeps(ca, cb, moves);
    var d := Run(ca, cb, moves);
    DrainedHalf(d.a, d.b);
    DrainedHalf(d.b, d.a);
  }

  lemma DrainedHalf(x: End, y: End)
    requires Half(x, y) && Half(y, x)
    ensures Active(x.local) && Active(y.local) && x.read == |y.local.sent| && y.read == |x.local.sent| ==>
      Authenticated(x.local)
  {
    hide Accepted, LogShape, Has, Earned;
    assert x.local.sent[..|x.local.sent|] == x.local.sent;
    assert y.local.sent[..|y.local.sent|] == y.local.sent;
  }
}

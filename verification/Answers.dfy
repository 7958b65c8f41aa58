/** What a session puts on the wire of one connection, event by event, in the texts of the protocol
    (src/chat/chat_session.cpp). */
module Answers {
  import opened Text
  import opened Protocol
  import opened Connection
  import opened Config
  import opened ChatSession
  import opened TwoParty
  import Message
  import SessionJson
  import SessionHistory

  function StrIn(p: Packet, key: string): string { SessionJson.ExtractStr(p.payload, key) }

  predicate Hung(l: Local) { l.link.Some? && !l.link.value.running }

  /** One DISCONNECT with this reason goes out, and the connection is hung up. */
  ghost predicate Refuses(out: seq<Packet>, reason: string, after: Local) {
    out == [Packet(DISCONNECT, reason)] && Hung(after)
  }

  /** What an open connection sends on a frame, and whether it stays open. */
  ghost predicate Reply(cfg: AppConfig, p: Packet, out: seq<Packet>, after: Local) {
    match p.mtype
    case HELLO =>
      if StrIn(p, "device_id") == "" then Refuses(out, "invalid HELLO", after)
      else Active(after) && if cfg.requireAuth then Challenges(cfg, StrIn(p, "device_id"), out) else out == []
    case AUTH_REQUEST => Active(after) && Responds(cfg, out)
    case AUTH_RESPONSE =>
      if cfg.pskHash == "" || StrIn(p, "response") == cfg.pskHash then Active(after) && out == [Packet(AUTH_OK, "{}")]
      else
        && |out| == 2 && out[0] == Packet(AUTH_FAIL, "{\"reason\":\"bad credentials\"}")
        && Refuses(out[1..], "authentication failed", after)
    case PING => Active(after) && out == [Packet(PONG, "{}")]
    case DISCONNECT => Refuses(out, "peer requested disconnect", after)
    case _ => Active(after) && out == []
  }

  /** The challenge names both devices. */
  ghost predicate Challenges(cfg: AppConfig, peerId: string, out: seq<Packet>) {
    && |out| == 1 && out[0].mtype == AUTH_REQUEST
    && StrIn(out[0], "challenge") == SessionJson.Garbled(peerId + "|" + cfg.deviceId)
  }

  /** The answer gives the secret, or "ok" without one, and the device. */
  ghost predicate Responds(cfg: AppConfig, out: seq<Packet>) {
    && |out| == 1 && out[0].mtype == AUTH_RESPONSE
    && StrIn(out[0], "response") == SessionJson.Garbled(if cfg.pskHash == "" then "ok" else cfg.pskHash)
    && StrIn(out[0], "device_id") == SessionJson.Garbled(cfg.deviceId)
  }

  /** The introduction names the device, its user, its platform and its port. */
  ghost predicate Introduces(cfg: AppConfig, p: Packet) {
    && p.mtype == HELLO
    && StrIn(p, "device_id") == SessionJson.Garbled(cfg.deviceId)
    && StrIn(p, "display_name") == SessionJson.Garbled(cfg.displayName)
    && StrIn(p, "platform") == SessionJson.Garbled(cfg.platform)
    && Message.IntField(p.payload, "tcp_port") == cfg.listenPort
  }

  lemma ChallengeIs(cfg: AppConfig, peerId: string)
    ensures Challenges(cfg, peerId, [AuthRequestPacket(cfg, peerId)])
  {
    hide SessionJson.ExtractStr, SessionJson.Garbled, SessionJson.AuthRequestPayload;
    SessionJson.AuthRequestRead(peerId + "|" + cfg.deviceId);
  }

  lemma AnswerIs(cfg: AppConfig)
    ensures Responds(cfg, [AuthResponsePacket(cfg)])
  {
    hide SessionJson.ExtractStr, SessionJson.Garbled, SessionJson.AuthResponsePayload;
    SessionJson.AuthResponseRead(ResponseText(cfg), cfg.deviceId);
    SessionJson.AuthResponseDevice(ResponseText(cfg), cfg.deviceId);
  }

  lemma HelloIs(cfg: AppConfig)
    ensures Introduces(cfg, HelloPacket(cfg))
  {
    hide SessionJson.ExtractStr, SessionJson.Garbled, SessionJson.HelloPayload, Message.IntField;
    SessionJson.HelloRead(cfg.deviceId, cfg.displayName, cfg.platform, cfg.listenPort);
    SessionJson.HelloPort(cfg.deviceId, cfg.displayName, cfg.platform, cfg.listenPort);
  }

  lemma Sends(l: Local, p: Packet)
    requires Active(l)
    ensures Put(l, p) == l.(sent := l.sent + [p])
  {}

  lemma HangsUp(l: Local, reason: string)
    requires Active(l)
    ensures var l' := Hang(l, reason); l'.sent == l.sent + [Packet(DISCONNECT, reason)] && Hung(l')
  {}

  /** An open connection does exactly this on every frame. */
  lemma ReceiveAnswered(cfg: AppConfig, l: Local, p: Packet)
    requires Active(l)
    ensures var l' := LocalStep(cfg, l, Receive(p));
      l.sent <= l'.sent && Reply(cfg, p, l'.sent[|l.sent|..], l')
  {
    hide Put, Hang, Refuses, Responds, Challenges, SessionJson.ExtractStr, SessionJson.AuthResponsePayload, OnHello,
      OnAuthResponse;
    match p.mtype
    case HELLO => HelloAnswered(cfg, l, p);
    case AUTH_RESPONSE => ResponseAnswered(cfg, l, p);
    case AUTH_REQUEST =>
      Sends(l, AuthResponsePacket(cfg));
      AnswerIs(cfg);
      assert (l.sent + [AuthResponsePacket(cfg)])[|l.sent|..] == [AuthResponsePacket(cfg)];
    case PING =>
      Sends(l, PongPacket());
      assert (l.sent + [PongPacket()])[|l.sent|..] == [PongPacket()];
    case DISCONNECT => RefusalIs(l, "peer requested disconnect");
    case _ => assert l.sent[|l.sent|..] == [];
  }

  lemma RefusalIs(l: Local, reason: string)
    requires Active(l)
    ensures var l' := Hang(l, reason); l.sent <= l'.sent && Refuses(l'.sent[|l.sent|..], reason, l')
  {
    hide Hang;
    HangsUp(l, reason);
    var q := Packet(DISCONNECT, reason);
    assert (l.sent + [q])[|l.sent|..] == [q];
  }

  lemma HelloAnswered(cfg: AppConfig, l: Local, p: Packet)
    requires Active(l) && p.mtype == HELLO
    ensures var l' := OnHello(cfg, l, p); l.sent <= l'.sent && Reply(cfg, p, l'.sent[|l.sent|..], l')
  {
    hide Put, Hang, Refuses, Challenges, SessionJson.ExtractStr, AuthRequestPacket;
    var id := SessionJson.ExtractStr(p.payload, "device_id");
    if id == "" {
      RefusalIs(l, "invalid HELLO");
    } else if cfg.requireAuth {
      var q := AuthRequestPacket(cfg, id);
      ChallengeIs(cfg, id);
      var who := PeerOf(l).(deviceId := id, displayName := SessionJson.ExtractStr(p.payload, "display_name"),
        platform := SessionJson.ExtractStr(p.payload, "platform"));
      Sends(l.(peer := Some(who.(state := AUTHENTICATING))), q);
      assert (l.sent + [q])[|l.sent|..] == [q];
    } else {
      assert l.sent[|l.sent|..] == [];
    }
  }

  lemma ResponseAnswered(cfg: AppConfig, l: Local, p: Packet)
    requires Active(l) && p.mtype == AUTH_RESPONSE
    ensures var l' := OnAuthResponse(cfg, l, p); l.sent <= l'.sent && Reply(cfg, p, l'.sent[|l.sent|..], l')
  {
    hide Put, Hang, SessionJson.ExtractStr;
    if Accepts(cfg, p) {
      var info, q := PeerOf(l).(state := AUTHENTICATED), AuthOkPacket();
      Sends(l.(peer := Some(info), notes := l.notes + [Up(info)]), q);
      assert (l.sent + [q])[|l.sent|..] == [q];
    } else {
      var q := AuthFailPacket();
      Sends(l, q);
      RefusalIs(Put(l, q), "authentication failed");
      var after := Hang(Put(l, q), "authentication failed").sent;
      assert Put(l, q).sent[|l.sent|] == q && after[|l.sent|] == q;
      assert after[|l.sent|..][1..] == after[|l.sent| + 1..];
    }
  }

  /** What the other events of an open connection send, and what becomes of the connection. */
  lemma EventSends(cfg: AppConfig, l: Local, e: LocalEvent)
    requires Active(l) && !e.Receive? && !e.Adopt?
    ensures var l' := LocalStep(cfg, l, e);
      && l.sent <= l'.sent
      && var out := l'.sent[|l.sent|..];
      match e
      case Ping => out == [Packet(PING, "{}")] && l'.link == l.link
      case Shut => out == [Packet(DISCONNECT, "session stopped")] && l'.link.None? && l'.peer.None?
      case Close(reason) => Refuses(out, reason, l')
      case Break => out == [] && l'.link == Some(Link(true, true))
      case Drop => out == [] && l'.link.None? && l'.peer.None?
      case Say(m) => out == (if Authenticated(l) then [Packet(CHAT_MESSAGE, Message.ToJson(m))] else []) && Active(l')
      case SayTo(id, m) =>
        && out == (if Authenticated(l) && l.peer.value.deviceId == id then [Packet(CHAT_MESSAGE, Message.ToJson(m))]
                   else [])
        && Active(l')
      case _ => out == [] && l' == l
  {
    hide Hang, Refuses, Message.ToJson;
    assert forall p :: (l.sent + [p])[|l.sent|..] == [p];
    assert l.sent[|l.sent|..] == [];
    if e.Shut? { HangsUp(l, "session stopped"); }
    if e.Close? { RefusalIs(l, e.reason); }
  }

  /** Nothing at all goes out on a connection that is gone, hung up or broken. */
  lemma ClosedIsSilent(cfg: AppConfig, l: Local, e: LocalEvent)
    requires !Active(l) && !e.Adopt?
    ensures LocalStep(cfg, l, e).sent == l.sent && !Active(LocalStep(cfg, l, e))
  {
    forall p ensures Put(l, p) == l { PutUnusable(l, p); }
    hide Put, HelloPacket, AuthRequestPacket, AuthResponsePacket, AuthOkPacket, AuthFailPacket, PingPacket, PongPacket,
      ChatPacket, SessionJson.ExtractStr;
    if e.Receive? { ClosedStaysSilent(cfg, l, e.packet); }
  }

  lemma ClosedStaysSilent(cfg: AppConfig, l: Local, p: Packet)
    requires !Active(l)
    ensures OnPacket(cfg, l, p).sent == l.sent && !Active(OnPacket(cfg, l, p))
  {
    hide Put, HelloPacket, AuthRequestPacket, AuthResponsePacket, AuthOkPacket, AuthFailPacket, PingPacket, PongPacket,
      ChatPacket, SessionJson.ExtractStr;
    forall k: Local, q | k.link == l.link ensures Put(k, q) == k { PutUnusable(k, q); }
  }

  // ---- The whole session -----------------------------------------------------

  /** The session runs exactly when it was started and not stopped since. */
  lemma {:induction false} RunningIs(trace: seq<Event>)
    ensures RunningAfter(trace) <==>
      exists i: nat :: i < |trace| && trace[i].Start? && forall j :: i < j < |trace| ==> !trace[j].Stop?
  {
    if trace != [] {
      var k := |trace| - 1;
      var before := trace[..k];
      RunningIs(before);
      if RunningAfter(before) {
        var i: nat :| i < |before| && before[i].Start? && forall j :: i < j < |before| ==> !before[j].Stop?;
        assert trace[i].Start?;
        assert forall j :: i < j < k ==> trace[j] == before[j];
      }
      forall i: nat | i < k && trace[i].Start? && forall j :: i < j < |trace| ==> !trace[j].Stop?
        ensures RunningAfter(before) {
        assert before[i].Start? && forall j :: i < j < |before| ==> before[j] == trace[j];
      }
    }
  }

  /** A running session registers the connection afresh and introduces itself on it, unless it is broken from the
      start. A session that does not run takes none. */
  lemma AddIntroduces(cfg: AppConfig, trace: seq<Event>, c: ConnId, broken: bool)
    ensures var l, l' := LocalAfter(cfg, trace, c), LocalAfter(cfg, trace + [Add(c, broken)], c);
      if !RunningAfter(trace) then l' == l
      else
        && l'.link == Some(Link(true, broken)) && l'.notes == l.notes + [Added]
        && l'.peer == Some(PeerInfo("", "", "", 0, "", CONNECTED))
        && l.sent <= l'.sent
        && if broken then l'.sent == l.sent else |l'.sent| == |l.sent| + 1 && Introduces(cfg, l'.sent[|l.sent|])
  {
    AfterOneMore(cfg, trace, Add(c, broken), c);
    HelloIs(cfg);
    hide HelloPacket, Introduces, LocalAfter, RunningAfter;
  }

  /** Every frame that arrives on an open connection is answered like this. */
  lemma FrameAnswered(cfg: AppConfig, trace: seq<Event>, c: ConnId, p: Packet)
    requires Active(LocalAfter(cfg, trace, c))
    ensures var l, l' := LocalAfter(cfg, trace, c), LocalAfter(cfg, trace + [Event.Frame(c, p)], c);
      l.sent <= l'.sent && Reply(cfg, p, l'.sent[|l.sent|..], l')
  {
    hide LocalAfter, RunningAfter, LocalStep, Reply;
    AfterOneMore(cfg, trace, Event.Frame(c, p), c);
    ReceiveAnswered(cfg, LocalAfter(cfg, trace, c), p);
  }

  /** And every other event of the session sends this on an open connection. */
  lemma EventAnswered(cfg: AppConfig, trace: seq<Event>, e: Event, c: ConnId)
    requires Active(LocalAfter(cfg, trace, c)) && !e.Frame? && !e.Add?
    ensures var l, l' := LocalAfter(cfg, trace, c), LocalAfter(cfg, trace + [e], c);
      l.sent <= l'.sent && Sent(cfg, RunningAfter(trace), e, c, l, l'.sent[|l.sent|..], l')
  {
    hide LocalAfter, RunningAfter, LocalStep;
    var l := LocalAfter(cfg, trace, c);
    AfterOneMore(cfg, trace, e, c);
    EventSends(cfg, l, Project(cfg, RunningAfter(trace), e, c));
    hide Active, Message.ToJson;
  }

  ghost predicate Sent(cfg: AppConfig, running: bool, e: Event, c: ConnId, l: Local, out: seq<Packet>, l': Local) {
    match e
    case Stop =>
      if running then out == [Packet(DISCONNECT, "session stopped")] && l'.link.None? && l'.peer.None? else l' == l
    case PingRound => if running then out == [Packet(PING, "{}")] && l'.link == l.link else l' == l
    case Broadcast(id, time, text) =>
      var m := Message.ChatMessage(id, cfg.deviceId, cfg.displayName, time, text);
      out == (if Authenticated(l) then [Packet(CHAT_MESSAGE, Message.ToJson(m))] else []) && Active(l')
    case SendTo(d, peerId, id, time, text) =>
      var m := Message.ChatMessage(id, cfg.deviceId, cfg.displayName, time, text);
      if d != c then l' == l
      else if Authenticated(l) && l.peer.value.deviceId == peerId then
        out == [Packet(CHAT_MESSAGE, Message.ToJson(m))] && Active(l')
      else out == [] && Active(l')
    case Lost(d) => if d == c then out == [] && l'.link.None? && l'.peer.None? else l' == l
    case SocketFails(d) => if d == c then out == [] && l'.link == Some(Link(true, true)) else l' == l
    case ClosedHere(d, reason) => if d == c then Refuses(out, reason, l') else l' == l
    case _ => l' == l
  }

  /** Nothing goes out on a connection that is gone, hung up or broken, whatever happens, until it is added again. */
  lemma SilentOnceClosed(cfg: AppConfig, trace: seq<Event>, e: Event, c: ConnId)
    requires !Active(LocalAfter(cfg, trace, c)) && (e.Add? ==> e.c != c)
    ensures var l, l' := LocalAfter(cfg, trace, c), LocalAfter(cfg, trace + [e], c);
      l'.sent == l.sent && !Active(l')
  {
    hide LocalAfter, RunningAfter, LocalStep;
    AfterOneMore(cfg, trace, e, c);
    ClosedIsSilent(cfg, LocalAfter(cfg, trace, c), Project(cfg, RunningAfter(trace), e, c));
  }

  /** What happens on one connection changes no other. */
  lemma OthersUntouched(cfg: AppConfig, trace: seq<Event>, e: Event, c: ConnId)
    requires e.Add? || e.Frame? || e.Lost? || e.SendTo? || e.SocketFails? || e.ClosedHere?
    requires e.c != c
    ensures LocalAfter(cfg, trace + [e], c) == LocalAfter(cfg, trace, c)
  {
    hide LocalAfter, RunningAfter;
    AfterOneMore(cfg, trace, e, c);
  }

  // ---- Entries and announcements ---------------------------------------------

  predicate SameEntry(l: Local, l': Local) { l'.peer == l.peer && l'.notes == l.notes }

  /** Both entries go; an authenticated peer is announced as gone. */
  predicate Gone(l: Local, l': Local) {
    && l'.link.None? && l'.peer.None?
    && l'.notes == l.notes + if l.peer.Some? && l.peer.value.state == AUTHENTICATED then [Down(l.peer.value)] else []
  }

  /** The peer is authenticated from here on, and announced as up. */
  predicate Greeted(l: Local, l': Local) {
    l'.peer.Some? && l'.peer.value.state == AUTHENTICATED && l'.notes == l.notes + [Up(l'.peer.value)]
  }

  /** What a frame does to the entry, with or without a connection. A HELLO also says who the peer is, and nothing
      else does. */
  predicate Recognised(cfg: AppConfig, l: Local, p: Packet, l': Local) {
    if p.mtype == HELLO && StrIn(p, "device_id") != "" then
      && l'.peer.Some? && SaysWho(p, l'.peer.value)
      && if cfg.requireAuth then l'.peer.value.state == AUTHENTICATING && l'.notes == l.notes else Greeted(l, l')
    else if p.mtype == AUTH_RESPONSE && l.link.Some? && (cfg.pskHash == "" || StrIn(p, "response") == cfg.pskHash) then
      Greeted(l, l') && (l.peer.Some? ==> l'.peer.value == l.peer.value.(state := AUTHENTICATED))
    else SameEntry(l, l')
  }

  predicate SaysWho(p: Packet, info: PeerInfo) {
    && info.deviceId == StrIn(p, "device_id") && info.displayName == StrIn(p, "display_name")
    && info.platform == StrIn(p, "platform")
  }

  lemma RecordedFrom(cfg: AppConfig, l: Local, p: Packet)
    ensures var l' := OnPacket(cfg, l, p);
      && (p.mtype == HELLO && StrIn(p, "device_id") != "" ==> l'.peer.Some? && SaysWho(p, l'.peer.value))
      && (p.mtype == AUTH_RESPONSE && l.link.Some? && l.peer.Some? && Accepts(cfg, p) ==>
          l'.peer == Some(l.peer.value.(state := AUTHENTICATED)))
  {
    hide SessionJson.ExtractStr, Put, Hang, AuthRequestPacket, AuthOkPacket, AuthFailPacket, AuthResponsePacket,
      PongPacket, InvalidHello, AuthFailed, DisconnectRequested;
    forall k: Local, q ensures Put(k, q).link == k.link && Put(k, q).peer == k.peer { SessionHistory.PutSame(k, q); }
  }

  predicate Noted(cfg: AppConfig, running: bool, l: Local, e: Event, c: ConnId, l': Local) {
    match e
    case Frame(d, p) => d == c ==> Recognised(cfg, l, p, l')
    case Lost(d) => d == c ==> Gone(l, l')
    case PingRound =>
      if running && l.link.Some? && (!l.link.value.running || l.link.value.broken) then Gone(l, l')
      else SameEntry(l, l')
    case Stop =>
      if running then l'.link.None? && l'.peer.None? && l'.notes == l.notes else SameEntry(l, l')
    case Add(_, _) => true
    case _ => SameEntry(l, l')
  }

  lemma FrameEntry(cfg: AppConfig, l: Local, p: Packet)
    ensures Recognised(cfg, l, p, LocalStep(cfg, l, Receive(p)))
  {
    SessionHistory.DecisionStep(cfg, l, Receive(p));
    ReceiveIsOnPacket(cfg, l, p);
    RecordedFrom(cfg, l, p);
    hide SessionJson.ExtractStr, LocalStep, OnPacket, SaysWho;
  }

  lemma OtherEntry(cfg: AppConfig, running: bool, l: Local, e: Event, c: ConnId)
    requires !e.Frame?
    ensures Noted(cfg, running, l, e, c, LocalStep(cfg, l, Project(cfg, running, e, c)))
  {
    SessionHistory.DecisionStep(cfg, l, Project(cfg, running, e, c));
    hide LocalStep, Message.ToJson;
    assert l.notes + [] == l.notes;
  }

  /** What each event of a session does to the entry of a peer and announces about it. */
  lemma EntryFollows(cfg: AppConfig, trace: seq<Event>, e: Event, c: ConnId)
    ensures Noted(cfg, RunningAfter(trace), LocalAfter(cfg, trace, c), e, c, LocalAfter(cfg, trace + [e], c))
  {
    hide LocalAfter, RunningAfter, LocalStep, Recognised;
    AfterOneMore(cfg, trace, e, c);
    var l := LocalAfter(cfg, trace, c);
    if e.Frame? {
      if e.c == c { FrameEntry(cfg, l, e.packet); }
    } else {
      OtherEntry(cfg, RunningAfter(trace), l, e, c);
    }
  }
}

/** Whom a session takes its peer for: the identity recorded from HELLO is the other side's own, in every run, in the
    entries and in the announcements, and it is what sendTo finds the connection by. */
module Identity {
  import opened Text
  import opened Protocol
  import opened Connection
  import opened Config
  import opened ChatSession
  import opened TwoParty
  import Message
  import SessionJson
  import SessionHistory
  import EndToEnd
  import TwoSessions

  /** The identity of `y`, as far as it survives the JSON on the way. */
  predicate Is(y: AppConfig, info: PeerInfo) {
    && info.deviceId == SessionJson.Garbled(y.deviceId)
    && info.displayName == SessionJson.Garbled(y.displayName)
    && info.platform == SessionJson.Garbled(y.platform)
    && info.address == "" && info.port == 0
  }

  /** An entry is blank until the peer has introduced itself, and then has its identity. */
  predicate Recorded(y: AppConfig, info: PeerInfo) {
    if info.state == CONNECTED then info == PeerInfo("", "", "", 0, "", CONNECTED) else Is(y, info)
  }

  ghost predicate NoteOk(y: AppConfig, n: Note) {
    match n
    case Added => true
    case Up(info) => Is(y, info) && info.state == AUTHENTICATED
    case Down(info) => Is(y, info) && info.state == AUTHENTICATED
  }

  ghost predicate Entries(y: AppConfig, l: Local) {
    && (l.peer.Some? ==> Recorded(y, l.peer.value))
    && forall i :: 0 <= i < |l.notes| ==> NoteOk(y, l.notes[i])
  }

  /** What becomes of an entry when its state changes. */
  lemma HelloNames(cfg: AppConfig, y: AppConfig, l: Local, p: Packet)
    requires p == HelloPacket(y) && ValidHello(p) && (l.peer.Some? ==> Recorded(y, l.peer.value))
    ensures var l' := OnHello(cfg, l, p); l'.peer.Some? && Is(y, l'.peer.value)
  {
    hide SessionJson.ExtractStr, SessionJson.Garbled, SessionJson.HelloPayload, Put, AuthRequestPacket, Hang;
    SessionJson.HelloRead(y.deviceId, y.displayName, y.platform, y.listenPort);
    var who := PeerOf(l).(deviceId := SessionJson.Garbled(y.deviceId),
      displayName := SessionJson.Garbled(y.displayName), platform := SessionJson.Garbled(y.platform));
    SessionHistory.PutSame(l.(peer := Some(who.(state := AUTHENTICATING))), AuthRequestPacket(cfg, who.deviceId));
  }

  lemma AnswerNames(cfg: AppConfig, y: AppConfig, l: Local, p: Packet)
    requires p.mtype == AUTH_RESPONSE && l.link.Some? && Accepts(cfg, p)
    requires l.peer.Some? && Is(y, l.peer.value)
    ensures var l' := OnAuthResponse(cfg, l, p); l'.peer.Some? && Is(y, l'.peer.value)
  {
    hide Accepts, Put, AuthOkPacket, SessionJson.Garbled;
    var info := l.peer.value.(state := AUTHENTICATED);
    SessionHistory.PutSame(l.(peer := Some(info), notes := l.notes + [Up(info)]), AuthOkPacket());
  }

  lemma AdoptIsBlank(cfg: AppConfig, l: Local, broken: bool)
    ensures var l' := LocalStep(cfg, l, Adopt(broken));
      l'.peer == Some(PeerInfo("", "", "", 0, "", CONNECTED)) && l'.notes == l.notes + [Added]
  {
    hide HelloPacket;
  }

  lemma NoteAdded(y: AppConfig, l: Local, l': Local, n: Note)
    requires Entries(y, l) && l'.notes == l.notes + [n] && NoteOk(y, n)
    requires l'.peer.Some? ==> Recorded(y, l'.peer.value)
    ensures Entries(y, l')
  {
    hide Is;
  }

  /** An event that decides nothing, or removes the entry, names nobody new. */
  lemma EffectKeeps(y: AppConfig, l: Local, l': Local, d: SessionHistory.Decision)
    requires Entries(y, l) && SessionHistory.Effect(l, l', d)
    requires d.Become? ==> Recorded(y, l'.peer.value)
    ensures Entries(y, l')
  {
    hide Is;
    assert l.notes + [] == l.notes;
  }

  lemma EventNames(x: AppConfig, y: AppConfig, l: Local, e: LocalEvent, log: seq<Packet>)
    requires Entries(y, l) && LinkOk(x, y, l, log) && (e.Receive? ==> LogShape(y, x, log + [e.packet]))
    ensures Entries(y, LocalStep(x, l, e))
  {
    SessionHistory.DecisionStep(x, l, e);
    Deciding(x, l, e);
    hide *;
    var l', d := LocalStep(x, l, e), SessionHistory.Decide(x, l, e);
    if d.Become? {
      if e.Adopt? {
        AdoptIsBlank(x, l, e.broken);
      } else {
        ReceiveNames(x, y, l, e.packet, log);
        BecomesState(l, l', d);
      }
      RecordedIs(y, l'.peer.value);
    }
    EffectKeeps(y, l, l', d);
  }

  lemma RecordedIs(y: AppConfig, info: PeerInfo)
    ensures Recorded(y, info) <==>
      info == PeerInfo("", "", "", 0, "", CONNECTED) || (Is(y, info) && info.state != CONNECTED)
  {
    hide Is;
  }

  lemma BecomesState(l: Local, l': Local, d: SessionHistory.Decision)
    requires SessionHistory.Effect(l, l', d) && d.Become?
    ensures l'.peer.Some? && l'.peer.value.state == d.state
  {}

  lemma Deciding(x: AppConfig, l: Local, e: LocalEvent)
    ensures var d := SessionHistory.Decide(x, l, e);
      d.Become? && !e.Adopt? ==>
        && e.Receive? && d.state != CONNECTED
        && (ValidHello(e.packet) || (e.packet.mtype == AUTH_RESPONSE && l.link.Some? && Accepts(x, e.packet)))
  {
    hide ValidHello, Accepts;
  }

  lemma ReceiveNames(x: AppConfig, y: AppConfig, l: Local, p: Packet, log: seq<Packet>)
    requires Entries(y, l) && LinkOk(x, y, l, log) && LogShape(y, x, log + [p])
    requires ValidHello(p) || (p.mtype == AUTH_RESPONSE && l.link.Some? && Accepts(x, p))
    ensures var l' := LocalStep(x, l, Receive(p)); l'.peer.Some? && Is(y, l'.peer.value)
  {
    hide *;
    FirstIsHello(y, x, log, p);
    ReceiveIsOnPacket(x, l, p);
    PacketCases(x, l, p);
    HelloHasType(p);
    if ValidHello(p) {
      assert log == [];
      EntryOf(y, l);
      HelloNames(x, y, l, p);
    } else {
      PastHello(x, y, l, log);
      AnswerNames(x, y, l, p);
    }
  }

  lemma EntryOf(y: AppConfig, l: Local)
    requires Entries(y, l)
    ensures l.peer.Some? ==> Recorded(y, l.peer.value)
  {}

  /** A registered peer that has introduced itself is named. */
  lemma PastHello(x: AppConfig, y: AppConfig, l: Local, log: seq<Packet>)
    requires Entries(y, l) && LinkOk(x, y, l, log) && l.link.Some? && log != [] && y.deviceId != ""
    ensures l.peer.Some? && Is(y, l.peer.value)
  {
    hide LogShape, Open, Has, Accepted, Is, NoteOk;
  }

  // ---- Every run -------------------------------------------------------------

  lemma EndNames(x: End, y: End, a: Act)
    requires Half(x, y) && Half(y, x) && Entries(y.cfg, x.local)
    ensures Entries(y.cfg, EndStep(x, y, a).local)
  {
    hide LinkOk, LogShape, LocalStep, Heard, Earned, Entries;
    HalfShape(y, x);
    var log := y.local.sent[..x.read];
    match a {
      case Connect(broken) => if !x.added { EventNames(x.cfg, y.cfg, x.local, Adopt(broken), log); }
      case Deliver =>
        if Deliverable(x, y) {
          var p := y.local.sent[x.read];
          assert y.local.sent[..x.read + 1] == log + [p];
          ShapeOfPrefix(y.cfg, x.cfg, y.local.sent, x.read + 1);
          EventNames(x.cfg, y.cfg, x.local, Receive(p), log);
        }
      case Own(e) => if Possible(x.cfg, e) { EventNames(x.cfg, y.cfg, x.local, e, log); }
    }
  }

  /** In every run each side's entry and announcements name the other side. */
  lemma {:induction false} RunNames(ca: AppConfig, cb: AppConfig, moves: seq<Move>)
    ensures var d := Run(ca, cb, moves); Entries(cb, d.a.local) && Entries(ca, d.b.local)
  {
    hide Entries, EndStep, Half;
    if moves == [] {
      NobodyNamed(ca, cb);
      NobodyNamed(cb, ca);
    } else {
      var k := |moves| - 1;
      RunNames(ca, cb, moves[..k]);
      RunKeeps(ca, cb, moves[..k]);
      RunConfigs(ca, cb, moves[..k]);
      var d := Run(ca, cb, moves[..k]);
      match moves[k]
      case MoveA(act) => EndNames(d.a, d.b, act);
      case MoveB(act) => EndNames(d.b, d.a, act);
    }
  }

  lemma NobodyNamed(x: AppConfig, y: AppConfig)
    ensures Entries(y, Fresh(x).local)
  {}

  /** While a connection is registered, its entry is blank until the other side's HELLO is handled, and from then on
      names the other side, unless that has no name. */
  ghost predicate Met(x: End, y: AppConfig) {
    x.local.link.Some? ==>
      && x.local.peer.Some?
      && (x.read == 0 || y.deviceId == "" ==> x.local.peer.value == PeerInfo("", "", "", 0, "", CONNECTED))
      && (x.read > 0 && y.deviceId != "" ==> Is(y, x.local.peer.value) && x.local.peer.value.state != CONNECTED)
  }

  lemma HalfMeets(x: End, y: End)
    requires Half(x, y) && Entries(y.cfg, x.local)
    ensures Met(x, y.cfg)
  {
    hide LogShape, Open, Has, Accepted, Is, NoteOk, Earned;
  }

  lemma RegisteredPeers(ca: AppConfig, cb: AppConfig, moves: seq<Move>)
    ensures var d := Run(ca, cb, moves); Met(d.a, cb) && Met(d.b, ca)
  {
    hide Met, Half, Entries, Run;
    RunNames(ca, cb, moves);
    RunKeeps(ca, cb, moves);
    RunConfigs(ca, cb, moves);
    var d := Run(ca, cb, moves);
    HalfMeets(d.a, d.b);
    HalfMeets(d.b, d.a);
  }

  /** Without unreadable control characters the recorded identity is the configured one, as it stands. */
  lemma PlainIdentity(y: AppConfig, info: PeerInfo)
    requires Is(y, info)
    ensures info.deviceId == y.deviceId <==> SessionJson.NoControl(y.deviceId)
    ensures info.displayName == y.displayName <==> SessionJson.NoControl(y.displayName)
    ensures info.platform == y.platform <==> SessionJson.NoControl(y.platform)
  {
    hide SessionJson.Garbled, SessionJson.NoControl;
    SessionJson.GarbledLength(y.deviceId);
    SessionJson.GarbledLength(y.displayName);
    SessionJson.GarbledLength(y.platform);
  }

  // ---- Whole sessions --------------------------------------------------------

  /** Two whole sessions, seen from a pair of connections that feed each other. */
  lemma SessionsName(ca: AppConfig, cb: AppConfig, h: seq<TwoSessions.Joint>, c: ConnId, d: ConnId)
    requires TwoSessions.Proper(ca, TwoSessions.TraceA(h), c) && TwoSessions.Proper(cb, TwoSessions.TraceB(h), d)
    requires TwoSessions.Supplied(ca, cb, h, c, d)
    ensures var x := TwoSessions.EndOf(ca, TwoSessions.TraceA(h), c);
      var y := TwoSessions.EndOf(cb, TwoSessions.TraceB(h), d);
      Entries(cb, x.local) && Met(x, cb) && Entries(ca, y.local) && Met(y, ca)
  {
    hide Met, Entries, Run, TwoSessions.Proper, TwoSessions.Supplied, TwoSessions.EndOf;
    var moves := TwoSessions.JointIsDuo(ca, cb, h, c, d);
    RunNames(ca, cb, moves);
    RegisteredPeers(ca, cb, moves);
  }

  /** sendTo finds a connection by the other side's device id exactly when that id has no unreadable control
      character, on every connection that a broadcast would reach. */
  lemma NamedByOwnId(s: ChatSession, cb: AppConfig, h: seq<TwoSessions.Joint>, c: ConnId, d: ConnId)
    requires s.Valid() && s.trace == TwoSessions.TraceA(h) && s.Reaches(c)
    requires TwoSessions.Proper(s.config, s.trace, c) && TwoSessions.Proper(cb, TwoSessions.TraceB(h), d)
    requires TwoSessions.Supplied(s.config, cb, h, c, d)
    ensures s.Named(c, cb.deviceId) <==> SessionJson.NoControl(cb.deviceId)
  {
    hide LocalAfter, MessagesAfter, RunningAfter, SessionJson.NoControl, Is, TwoSessions.Proper, TwoSessions.Supplied,
      EndToEnd.FramesFrom, EndToEnd.From, EndToEnd.CallbackLog, TwoSessions.AddedIn, NoteOk;
    SessionsName(s.config, cb, h, c, d);
    assert s.View(c) == LocalAfter(s.config, s.trace, c);
    PlainIdentity(cb, s.peers[c]);
  }

  /** And then its one message goes out on that wire. */
  lemma SendToFindsPeer(ca: AppConfig, cb: AppConfig, h: seq<TwoSessions.Joint>, c: ConnId, d: ConnId,
                        id: string, time: Message.int64, text: string)
    requires TwoSessions.Proper(ca, TwoSessions.TraceA(h), c) && TwoSessions.Proper(cb, TwoSessions.TraceB(h), d)
    requires TwoSessions.Supplied(ca, cb, h, c, d)
    requires var l := LocalAfter(ca, TwoSessions.TraceA(h), c); Authenticated(l) && Active(l)
    ensures var ta := TwoSessions.TraceA(h);
      var m := Message.ChatMessage(id, ca.deviceId, ca.displayName, time, text);
      var frame := Packet(CHAT_MESSAGE, Message.ToJson(m));
      LocalAfter(ca, ta + [Event.SendTo(c, cb.deviceId, id, time, text)], c).sent ==
        LocalAfter(ca, ta, c).sent + if SessionJson.NoControl(cb.deviceId) then [frame] else []
  {
    hide LocalAfter, SessionJson.NoControl, Is, TwoSessions.Proper, TwoSessions.Supplied, Message.ToJson, NoteOk,
      EndToEnd.FramesFrom, EndToEnd.From, EndToEnd.CallbackLog, TwoSessions.AddedIn, RunningAfter, TwoSessions.TraceA;
    var ta := TwoSessions.TraceA(h);
    var l := LocalAfter(ca, ta, c);
    SessionsName(ca, cb, h, c, d);
    PlainIdentity(cb, l.peer.value);
    AfterOneMore(ca, ta, Event.SendTo(c, cb.deviceId, id, time, text), c);
    assert l.sent + [] == l.sent;
  }
}

/** What every run of a session keeps: the state of each peer is decided by its history, and the
    callbacks follow it. The runs are those of ChatSession.ChatSession, whose methods keep the
    object equal to its trace. */
module SessionHistory {
  import opened Text
  import opened Protocol
  import opened Connection
  import opened Config
  import opened ChatSession
  import Message
  import SessionJson

  // ---- The latest decisive event ---------------------------------------------

  /** What an event decides about the recorded state of a peer; `announced` says that an authenticated peer is
      reported as gone. */
  datatype Decision = Keep | Become(state: ConnectionState) | Forget(announced: bool)

  /** Only these events decide: being added, a HELLO with a device id, an accepted answer on a
      known connection, and everything that removes the entry. */
  function Decide(cfg: AppConfig, l: Local, e: LocalEvent): Decision {
    match e
    case Adopt(_) => Become(CONNECTED)
    case Receive(p) =>
      if ValidHello(p) then Become(if cfg.requireAuth then AUTHENTICATING else AUTHENTICATED)
      else if p.mtype == AUTH_RESPONSE && l.link.Some? && Accepts(cfg, p) then Become(AUTHENTICATED)
      else Keep
    case Drop => Forget(true)
    case Shut => Forget(false)
    case Ping => if l.link.Some? && !Usable(l.link.value) then Forget(true) else Keep
    case _ => Keep
  }

  function DecisionAt(cfg: AppConfig, trace: seq<Event>, i: nat, c: ConnId): Decision
    requires i < |trace|
  {
    Decide(cfg, LocalAfter(cfg, trace[..i], c), Project(cfg, RunningAfter(trace[..i]), trace[i], c))
  }

  /** Event `i` decided, and nothing after it did. */
  ghost predicate Latest(cfg: AppConfig, trace: seq<Event>, i: nat, c: ConnId) {
    i < |trace| && DecisionAt(cfg, trace, i, c) != Keep &&
    forall j :: i < j < |trace| ==> DecisionAt(cfg, trace, j, c) == Keep
  }

  /** What a decision does to an entry and to the announcements made for it. */
  ghost predicate Effect(l: Local, l': Local, d: Decision) {
    match d
    case Keep => l'.peer == l.peer && (l'.link.Some? ==> l.link.Some?) && l'.notes == l.notes
    case Become(st) =>
      && l'.peer.Some? && l'.peer.value.state == st
      && l'.notes == l.notes + NoteOf(l'.peer.value)
    case Forget(announced) =>
      && l'.peer.None? && l'.link.None?
      && l'.notes == l.notes + if announced && Authenticated(l) then [Down(l.peer.value)] else []
  }

  function NoteOf(info: PeerInfo): seq<Note> {
    if info.state == CONNECTED then [Added] else if info.state == AUTHENTICATED then [Up(info)] else []
  }

  lemma PutSame(l: Local, p: Packet)
    ensures Put(l, p).link == l.link && Put(l, p).peer == l.peer && Put(l, p).notes == l.notes
  {
    hide Transmit;
  }

  lemma HangSame(l: Local, reason: string)
    ensures var l' := Hang(l, reason); (l'.link.Some? <==> l.link.Some?) && l'.peer == l.peer && l'.notes == l.notes
  {
    hide Put;
    PutSame(l, Packet(DISCONNECT, reason));
  }

  lemma HelloEffect(cfg: AppConfig, l: Local, p: Packet)
    requires p.mtype == HELLO
    ensures Effect(l, OnHello(cfg, l, p), Decide(cfg, l, Receive(p)))
  {
    hide Put, Hang, SessionJson.ExtractStr, AuthRequestPacket, Accepts, InvalidHello, ValidHello;
    HangSame(l, InvalidHello());
    var who := PeerOf(l).(deviceId := SessionJson.ExtractStr(p.payload, "device_id"),
      displayName := SessionJson.ExtractStr(p.payload, "display_name"),
      platform := SessionJson.ExtractStr(p.payload, "platform"));
    PutSame(l.(peer := Some(who.(state := AUTHENTICATING))), AuthRequestPacket(cfg, who.deviceId));
    assert l.notes + [] == l.notes;
  }

  lemma AnswerEffect(cfg: AppConfig, l: Local, p: Packet)
    requires p.mtype == AUTH_RESPONSE
    ensures Effect(l, OnAuthResponse(cfg, l, p), Decide(cfg, l, Receive(p)))
  {
    hide Put, Hang, SessionJson.ExtractStr, AuthOkPacket, AuthFailPacket, Accepts, AuthFailed;
    var info := PeerOf(l).(state := AUTHENTICATED);
    PutSame(l.(peer := Some(info), notes := l.notes + [Up(info)]), AuthOkPacket());
    PutSame(l, AuthFailPacket());
    HangSame(Put(l, AuthFailPacket()), AuthFailed());
  }

  lemma PacketEffect(cfg: AppConfig, l: Local, p: Packet)
    ensures Effect(l, OnPacket(cfg, l, p), Decide(cfg, l, Receive(p)))
  {
    hide Put, Hang, OnHello, OnAuthResponse, SessionJson.ExtractStr, AuthResponsePacket, PongPacket, Accepts,
      DisconnectRequested;
    if p.mtype == HELLO {
      HelloEffect(cfg, l, p);
    } else if p.mtype == AUTH_RESPONSE {
      AnswerEffect(cfg, l, p);
    } else {
      HangSame(l, DisconnectRequested());
      PutSame(l, AuthResponsePacket(cfg));
      PutSame(l, PongPacket());
    }
  }

  lemma PingEffect(cfg: AppConfig, l: Local)
    ensures Effect(l, OnPing(l), Decide(cfg, l, Ping))
  {
    hide Put, PingPacket;
    PutSame(l, PingPacket());
    assert l.notes + [] == l.notes;
  }

  lemma SayEffect(l: Local, peerId: string, m: Message.ChatMessage)
    ensures Effect(l, OnSay(l, m), Keep) && Effect(l, OnSayTo(l, peerId, m), Keep)
  {
    hide Put, ChatPacket;
    PutSame(l, ChatPacket(m));
  }

  lemma AdoptEffect(cfg: AppConfig, l: Local, broken: bool)
    ensures Effect(l, OnAdopt(cfg, l, broken), Become(CONNECTED))
  {
    hide Put, HelloPacket;
    PutSame(l.(link := Some(Link(true, broken)), peer := Some(NEW_PEER), notes := l.notes + [Added]), HelloPacket(cfg));
  }

  lemma HangEffect(l: Local, reason: string)
    ensures Effect(l, Hang(l, reason), Keep)
    ensures Effect(l, Hang(l, reason).(link := None, peer := None), Forget(false))
  {
    hide Hang;
    HangSame(l, reason);
    assert l.notes + [] == l.notes;
  }

  /** Every event does to the entry exactly what it decides. */
  lemma DecisionStep(cfg: AppConfig, l: Local, e: LocalEvent)
    ensures Effect(l, LocalStep(cfg, l, e), Decide(cfg, l, e))
  {
    hide Effect, OnPacket, OnPing, OnSay, OnSayTo, OnAdopt, Hang, Forgotten, SessionStopped, ValidHello, Accepts;
    match e
    case Idle => SameEffect(l);
    case Adopt(broken) => AdoptEffect(cfg, l, broken);
    case Receive(p) => PacketEffect(cfg, l, p);
    case Drop => SameEffect(l);
    case Say(m) => SayEffect(l, "", m);
    case SayTo(peerId, m) => SayEffect(l, peerId, m);
    case Ping => PingEffect(cfg, l);
    case Shut => HangEffect(l, SessionStopped());
    case Break => SameEffect(l);
    case Close(reason) => HangEffect(l, reason);
  }

  lemma SameEffect(l: Local)
    ensures Effect(l, l, Keep) && Effect(l, OnBreak(l), Keep) && Effect(l, Forgotten(l), Forget(true))
  {
    assert l.notes + [] == l.notes;
  }

  lemma SameDecision(cfg: AppConfig, trace: seq<Event>, k: nat, i: nat, c: ConnId)
    requires i < k <= |trace|
    ensures DecisionAt(cfg, trace[..k], i, c) == DecisionAt(cfg, trace, i, c)
  {
    assert trace[..k][..i] == trace[..i];
  }

  /** The state recorded for a connection id is `st` exactly when the latest decisive event of
      its history says so; without an entry there was none, or it removed the entry. */
  lemma {:induction false} HistoryDecides(cfg: AppConfig, trace: seq<Event>, c: ConnId, st: ConnectionState)
    ensures var l := LocalAfter(cfg, trace, c);
      l.peer.Some? && l.peer.value.state == st <==>
        exists i :: Latest(cfg, trace, i, c) && DecisionAt(cfg, trace, i, c) == Become(st)
  {
    hide LocalStep, Decide, DecisionAt, Project;
    if trace != [] {
      var k := |trace| - 1;
      var before := trace[..k];
      var l, e := LocalAfter(cfg, before, c), Project(cfg, RunningAfter(before), trace[k], c);
      HistoryDecides(cfg, before, c, st);
      DecisionStep(cfg, l, e);
      LastDecision(cfg, trace, c);
      if DecisionAt(cfg, trace, k, c) == Keep {
        LatestKeeps(cfg, trace, c, st);
      } else {
        assert Latest(cfg, trace, k, c);
        OnlyLatest(cfg, trace, k, c);
      }
    }
  }

  lemma LastDecision(cfg: AppConfig, trace: seq<Event>, c: ConnId)
    requires trace != []
    ensures var k := |trace| - 1;
      DecisionAt(cfg, trace, k, c) ==
        Decide(cfg, LocalAfter(cfg, trace[..k], c), Project(cfg, RunningAfter(trace[..k]), trace[k], c))
  {}

  lemma OnlyLatest(cfg: AppConfig, trace: seq<Event>, k: nat, c: ConnId)
    requires Latest(cfg, trace, k, c)
    ensures forall i :: Latest(cfg, trace, i, c) ==> i == k
  {
    hide DecisionAt;
  }

  lemma LatestKeeps(cfg: AppConfig, trace: seq<Event>, c: ConnId, st: ConnectionState)
    requires trace != [] && DecisionAt(cfg, trace, |trace| - 1, c) == Keep
    ensures var before := trace[..|trace| - 1];
      (exists i :: Latest(cfg, trace, i, c) && DecisionAt(cfg, trace, i, c) == Become(st)) <==>
      (exists i :: Latest(cfg, before, i, c) && DecisionAt(cfg, before, i, c) == Become(st))
  {
    hide DecisionAt;
    var k := |trace| - 1;
    var before := trace[..k];
    forall i: nat | i < k ensures DecisionAt(cfg, before, i, c) == DecisionAt(cfg, trace, i, c) {
      SameDecision(cfg, trace, k, i, c);
    }
    forall i: nat ensures Latest(cfg, trace, i, c) <==> Latest(cfg, before, i, c) {}
  }

  // ---- The message callback --------------------------------------------------

  /** Event `i` is a well-formed chat from a peer whose history says AUTHENTICATED. */
  ghost predicate ChatArrives(cfg: AppConfig, trace: seq<Event>, i: nat) {
    && i < |trace| && trace[i].Frame? && trace[i].packet.mtype == CHAT_MESSAGE
    && Message.FromJson(trace[i].packet.payload).Some?
    && exists j :: Latest(cfg, trace[..i], j, trace[i].c) &&
         DecisionAt(cfg, trace[..i], j, trace[i].c) == Become(AUTHENTICATED)
  }

  /** The chats among the first `n` events, in order. */
  ghost function ChatLog(cfg: AppConfig, trace: seq<Event>, n: nat): seq<Message.ChatMessage>
    requires n <= |trace|
  {
    if n == 0 then []
    else if ChatArrives(cfg, trace, n - 1) then
      ChatLog(cfg, trace, n - 1) + [Message.FromJson(trace[n - 1].packet.payload).value]
    else ChatLog(cfg, trace, n - 1)
  }

  /** The message callback receives exactly the well-formed chats that arrive from peers whose
      latest decisive event authenticated them, in order of arrival. */
  lemma {:induction false} CallbackReceivesAuthenticatedChats(cfg: AppConfig, trace: seq<Event>, n: nat)
    requires n <= |trace|
    ensures MessagesAfter(cfg, trace[..n]) == ChatLog(cfg, trace, n)
  {
    if n > 0 {
      hide LocalAfter, LocalStep, Decide, DecisionAt, Latest, Message.FromJson;
      CallbackReceivesAuthenticatedChats(cfg, trace, n - 1);
      var t, e := trace[..n], trace[n - 1];
      assert t[..n - 1] == trace[..n - 1];
      assert MessagesAfter(cfg, t[..n - 1]) + [] == MessagesAfter(cfg, t[..n - 1]);
      if e.Frame? { HistoryDecides(cfg, trace[..n - 1], e.c, AUTHENTICATED); }
    }
  }

  // ---- The two maps and the peer-event callback ------------------------------

  /** Since the connection was last added or announced as gone, it was announced as up. */
  ghost predicate UpSince(notes: seq<Note>, n: nat) {
    exists j :: 0 <= j < n <= |notes| && notes[j].Up? && forall k :: j < k < n ==> notes[k].Up?
  }

  ghost predicate NotesOk(notes: seq<Note>) {
    forall i :: 0 <= i < |notes| && notes[i].Down? ==> UpSince(notes, i)
  }

  ghost predicate LocalInv(l: Local) {
    && (l.link.Some? ==> l.peer.Some?)
    && NotesOk(l.notes)
    && (Authenticated(l) ==> UpSince(l.notes, |l.notes|))
  }

  lemma NotesGrow(notes: seq<Note>, n: Note)
    requires NotesOk(notes) && (n.Down? ==> UpSince(notes, |notes|))
    ensures NotesOk(notes + [n]) && (n.Up? ==> UpSince(notes + [n], |notes| + 1))
  {
    var all := notes + [n];
    forall i | 0 <= i < |all| && all[i].Down? ensures UpSince(all, i) {
      assert i < |notes| ==> notes[i].Down?;
      var j :| 0 <= j < i <= |notes| && notes[j].Up? && forall k :: j < k < i ==> notes[k].Up?;
      assert all[j].Up? && forall k :: j < k < i ==> all[k] == notes[k];
    }
    if n.Up? { assert all[|notes|].Up?; }
  }

  lemma LocalInvStep(cfg: AppConfig, l: Local, e: LocalEvent)
    requires LocalInv(l)
    ensures LocalInv(LocalStep(cfg, l, e))
  {
    hide NotesOk, UpSince, LocalStep, Decide;
    DecisionStep(cfg, l, e);
    var notes, l' := l.notes, LocalStep(cfg, l, e);
    assert notes + [] == notes;
    if l'.notes != notes {
      NotesGrow(notes, l'.notes[|notes|]);
    }
  }

  /** In every run: each connection of the session has a peer entry, and each "disconnected"
      notification was preceded by a "connected" one since the connection was last added or
      last announced as disconnected. */
  lemma {:induction false} SessionInvariant(cfg: AppConfig, trace: seq<Event>, c: ConnId)
    ensures LocalInv(LocalAfter(cfg, trace, c))
  {
    if trace == [] {
    } else {
      hide LocalInv, LocalStep, Project;
      var k := |trace| - 1;
      SessionInvariant(cfg, trace[..k], c);
      LocalInvStep(cfg, LocalAfter(cfg, trace[..k], c), Project(cfg, RunningAfter(trace[..k]), trace[k], c));
    }
  }

  // ---- Peer entries without a connection -------------------------------------

  predicate Orphan(l: Local) { l.peer.Some? && l.link.None? }

  /** A HELLO with a device id arrives under an id that no connection is registered for. */
  ghost predicate Orphans(cfg: AppConfig, trace: seq<Event>, i: nat, c: ConnId) {
    && i < |trace| && trace[i].Frame? && trace[i].c == c && ValidHello(trace[i].packet)
    && LocalAfter(cfg, trace[..i], c).link.None?
  }

  /** The connection is added, reported lost, or the session stopped. */
  predicate Clears(e: LocalEvent) { e.Adopt? || e.Drop? || e.Shut? }

  ghost predicate OrphanedAt(cfg: AppConfig, trace: seq<Event>, i: nat, c: ConnId) {
    Orphans(cfg, trace, i, c) &&
    forall j :: i < j < |trace| ==> !Clears(Project(cfg, RunningAfter(trace[..j]), trace[j], c))
  }

  lemma OrphanStep(cfg: AppConfig, l: Local, e: LocalEvent)
    requires l.link.Some? ==> l.peer.Some?
    ensures Orphan(LocalStep(cfg, l, e)) <==>
      (l.link.None? && e.Receive? && ValidHello(e.packet)) || (Orphan(l) && !Clears(e))
  {
    if e.Receive? {
      OrphanPacket(cfg, l, e.packet);
    } else {
      OrphanOther(cfg, l, e);
    }
  }

  lemma OrphanPacket(cfg: AppConfig, l: Local, p: Packet)
    ensures var l' := OnPacket(cfg, l, p);
      && (l'.link.Some? <==> l.link.Some?)
      && (l.link.None? ==> (l'.peer.Some? <==> l.peer.Some? || ValidHello(p)))
  {
    hide Put, Hang, SessionJson.ExtractStr, AuthRequestPacket, AuthResponsePacket, AuthOkPacket, AuthFailPacket,
      Accepts, InvalidHello, AuthFailed, DisconnectRequested, PongPacket;
    HangSame(l, InvalidHello());
    HangSame(l, DisconnectRequested());
    HangSame(Put(l, AuthFailPacket()), AuthFailed());
    forall k: Local, q ensures Put(k, q).link == k.link && Put(k, q).peer == k.peer { PutSame(k, q); }
  }

  lemma OrphanOther(cfg: AppConfig, l: Local, e: LocalEvent)
    requires !e.Receive? && (l.link.Some? ==> l.peer.Some?)
    ensures Orphan(LocalStep(cfg, l, e)) <==> Orphan(l) && !Clears(e)
  {
    hide Put, Hang, HelloPacket, ChatPacket, PingPacket, SessionStopped;
    forall k: Local, q ensures Put(k, q).link == k.link && Put(k, q).peer == k.peer { PutSame(k, q); }
    HangSame(l, SessionStopped());
    if e.Close? { HangSame(l, e.reason); }
  }

  /** A peer entry has no connection exactly when a HELLO came in for an id without a connection, and since then the
      id was not added, not reported lost, and the session not stopped. */
  lemma {:induction false} OrphansExactly(cfg: AppConfig, trace: seq<Event>, c: ConnId)
    ensures Orphan(LocalAfter(cfg, trace, c)) <==> exists i :: OrphanedAt(cfg, trace, i, c)
  {
    hide LocalStep, Project, ValidHello, RunningAfter;
    if trace != [] {
      var k := |trace| - 1;
      var before, e := trace[..k], trace[k];
      OrphansExactly(cfg, before, c);
      SessionInvariant(cfg, before, c);
      OrphanStep(cfg, LocalAfter(cfg, before, c), Project(cfg, RunningAfter(before), e, c));
      ReceiveIsFrame(cfg, RunningAfter(before), e, c);
      OrphanedStep(cfg, trace, c);
    }
  }

  lemma ReceiveIsFrame(cfg: AppConfig, running: bool, e: Event, c: ConnId)
    ensures var le := Project(cfg, running, e, c);
      && (le.Receive? <==> e.Frame? && e.c == c) && (le.Receive? ==> le.packet == e.packet && !Clears(le))
  {}

  lemma OrphanedStep(cfg: AppConfig, trace: seq<Event>, c: ConnId)
    requires trace != []
    ensures var k := |trace| - 1; var before := trace[..k];
      (exists i :: OrphanedAt(cfg, trace, i, c)) <==>
      Orphans(cfg, trace, k, c) || ((exists i :: OrphanedAt(cfg, before, i, c)) &&
        !Clears(Project(cfg, RunningAfter(before), trace[k], c)))
  {
    hide LocalAfter, Project, ValidHello, RunningAfter, Clears;
    var k := |trace| - 1;
    var before := trace[..k];
    assert forall j :: 0 <= j < k ==> before[j] == trace[j] && before[..j] == trace[..j];
    if Orphans(cfg, trace, k, c) { assert OrphanedAt(cfg, trace, k, c); }
    forall i: nat | i < k
      ensures OrphanedAt(cfg, trace, i, c) <==>
        OrphanedAt(cfg, before, i, c) && !Clears(Project(cfg, RunningAfter(before), trace[k], c)) {
      assert Orphans(cfg, trace, i, c) <==> Orphans(cfg, before, i, c);
      assert before == trace[..k];
    }
  }

  /** No ping round removes such an entry: it stays as it is. */
  lemma {:induction false} PingsLeaveOrphans(cfg: AppConfig, trace: seq<Event>, n: nat, c: ConnId)
    requires Orphan(LocalAfter(cfg, trace, c))
    ensures LocalAfter(cfg, trace + seq(n, _ => PingRound), c) == LocalAfter(cfg, trace, c)
  {
    hide LocalAfter;
    if n == 0 {
      assert trace + seq(0, _ => PingRound) == trace;
    } else {
      var most := trace + seq(n - 1, _ => PingRound);
      PingsLeaveOrphans(cfg, trace, n - 1, c);
      assert trace + seq(n, _ => PingRound) == most + [PingRound];
      AfterOneMore(cfg, most, PingRound, c);
    }
  }

  /** A HELLO that is handled after its connection was reported lost, without authentication: from then on the
      session holds an authenticated peer that it has no connection to, whatever ping rounds follow. */
  lemma LateHelloLeavesOrphan(cfg: AppConfig, c: ConnId, p: Packet, n: nat)
    requires ValidHello(p) && !cfg.requireAuth
    ensures var trace := [Event.Start, Add(c, false), Lost(c), Event.Frame(c, p)] + seq(n, _ => PingRound);
      Orphan(LocalAfter(cfg, trace, c)) && Authenticated(LocalAfter(cfg, trace, c))
  {
    hide LocalAfter, ValidHello, SessionJson.ExtractStr, RunningAfter;
    var lost := [Event.Start, Add(c, false), Lost(c)];
    var trace := lost + [Event.Frame(c, p)];
    assert trace == [Event.Start, Add(c, false), Lost(c), Event.Frame(c, p)];
    assert lost == [Event.Start, Add(c, false)] + [Lost(c)];
    AfterOneMore(cfg, [Event.Start, Add(c, false)], Lost(c), c);
    AfterOneMore(cfg, lost, Event.Frame(c, p), c);
    PacketEffect(cfg, LocalAfter(cfg, lost, c), p);
    OrphanPacket(cfg, LocalAfter(cfg, lost, c), p);
    PingsLeaveOrphans(cfg, trace, n, c);
  }

  /** A broadcast puts the chat once on the wire of exactly the usable connections whose peer is
      authenticated, and changes nothing else. */
  lemma BroadcastReachesAuthenticated(cfg: AppConfig, trace: seq<Event>,
                                      id: string, time: Message.int64, text: string, c: ConnId)
    ensures var l := LocalAfter(cfg, trace, c);
      var p := Packet(CHAT_MESSAGE, Message.ToJson(Message.ChatMessage(id, cfg.deviceId, cfg.displayName, time, text)));
      LocalAfter(cfg, trace + [Event.Broadcast(id, time, text)], c) ==
        if Authenticated(l) && l.link.Some? && Usable(l.link.value) then l.(sent := l.sent + [p]) else l
  {
    hide Put, LocalAfter, Message.ToJson;
    var m, l := Chat(cfg, id, time, text), LocalAfter(cfg, trace, c);
    AfterOneMore(cfg, trace, Event.Broadcast(id, time, text), c);
    SayPuts(cfg, l, m);
  }
}

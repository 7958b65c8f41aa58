/** For which two configurations some run loses a chat, or lets one arrive too early: exactly which. */
module LostChats {
  import opened Text
  import opened Protocol
  import opened Connection
  import opened Config
  import opened ChatSession
  import opened TwoParty
  import Message
  import SessionJson

  // ---- Chats that are lost ---------------------------------------------------

  ghost predicate Reachable(ca: AppConfig, cb: AppConfig, d: Duo, n: nat) {
    exists moves :: |moves| == n && Run(ca, cb, moves) == d
  }

  lemma ReachStep(ca: AppConfig, cb: AppConfig, d: Duo, n: nat, m: Move)
    requires Reachable(ca, cb, d, n)
    ensures Reachable(ca, cb, Step(d, m), n + 1)
  {
    hide Step;
    var moves :| |moves| == n && Run(ca, cb, moves) == d;
    var more := moves + [m];
    assert more[..n] == moves && more[n] == m;
    assert Run(ca, cb, more) == Step(d, m);
  }

  lemma ReachA(ca: AppConfig, cb: AppConfig, a: End, b: End, n: nat, act: Act)
    requires Reachable(ca, cb, Duo(a, b), n)
    ensures Reachable(ca, cb, Duo(EndStep(a, b, act), b), n + 1)
  {
    hide EndStep, Reachable;
    ReachStep(ca, cb, Duo(a, b), n, MoveA(act));
  }

  lemma ReachB(ca: AppConfig, cb: AppConfig, a: End, b: End, n: nat, act: Act)
    requires Reachable(ca, cb, Duo(a, b), n)
    ensures Reachable(ca, cb, Duo(a, EndStep(b, a, act)), n + 1)
  {
    hide EndStep, Reachable;
    ReachStep(ca, cb, Duo(a, b), n, MoveB(act));
  }

  lemma ReachStart(ca: AppConfig, cb: AppConfig)
    ensures Reachable(ca, cb, Duo(Fresh(ca), Fresh(cb)), 0)
  {
    var none: seq<Move> := [];
    assert Run(ca, cb, none) == Duo(Fresh(ca), Fresh(cb));
  }

  lemma ReachInv(ca: AppConfig, cb: AppConfig, d: Duo, n: nat)
    requires Reachable(ca, cb, d, n)
    ensures Inv(d) && d.a.cfg == ca && d.b.cfg == cb
  {
    hide Inv;
    var moves :| |moves| == n && Run(ca, cb, moves) == d;
    RunKeeps(ca, cb, moves);
    RunConfigs(ca, cb, moves);
  }

  function Swapped(moves: seq<Move>): (r: seq<Move>)
    ensures |r| == |moves|
  {
    seq(|moves|, i requires 0 <= i < |moves| =>
      match moves[i] case MoveA(act) => MoveB(act) case MoveB(act) => MoveA(act))
  }

  lemma {:induction false} RunSwapped(ca: AppConfig, cb: AppConfig, moves: seq<Move>)
    ensures Run(cb, ca, Swapped(moves)) == Duo(Run(ca, cb, moves).b, Run(ca, cb, moves).a)
    decreases |moves|
  {
    hide EndStep;
    if moves != [] {
      var k := |moves| - 1;
      RunSwapped(ca, cb, moves[..k]);
      assert Swapped(moves)[..k] == Swapped(moves[..k]);
    }
  }

  /** A chat is next, and its sender is not held authenticated: it will be dropped. */
  ghost predicate Unready(x: End, y: End) { ChatNext(x, y) && !Authenticated(x.local) && x.heard == [] }

  /** And it is a well-formed one. */
  ghost predicate Loses(x: End, y: End) { Unready(x, y) && ChatOf(y.local.sent[x.read]) != [] }

  /** Any frame but a chat leaves the callback and the registration alone. */
  lemma DeliverPlain(x: End, y: End)
    requires Deliverable(x, y) && y.local.sent[x.read].mtype != CHAT_MESSAGE
    ensures var x' := EndStep(x, y, Deliver);
      && x'.heard == x.heard && x'.read == x.read + 1 && x'.added && x'.cfg == x.cfg
      && (x'.local.link.Some? <==> x.local.link.Some?)
  {
    hide LocalStep;
    LinkKept(x.cfg, x.local, y.local.sent[x.read]);
    assert x.heard + [] == x.heard;
  }

  /** An end in the middle of the handshake: open, nothing heard, and `sent` and `read` so far. */
  ghost predicate Midway(x: End, cfg: AppConfig, sent: nat, read: nat) {
    Listening(x, cfg, read) && Active(x.local) && |x.local.sent| == sent
  }

  ghost predicate Listening(x: End, cfg: AppConfig, read: nat) {
    x.cfg == cfg && x.added && x.local.link.Some? && x.read == read && x.heard == []
  }

  lemma Starts(cfg: AppConfig, y: End)
    ensures var x := EndStep(Fresh(cfg), y, Connect(false));
      Midway(x, cfg, 1, 0) && x.local.sent[0] == HelloPacket(cfg)
  {
    hide EndStep, Fresh, HelloPacket;
    Connected(cfg, y);
  }

  lemma DeliverIs(x: End, y: End)
    requires Deliverable(x, y)
    ensures EndStep(x, y, Deliver).local == LocalStep(x.cfg, x.local, Receive(y.local.sent[x.read]))
  {
    hide LocalStep, Heard;
  }

  /** Whatever a listening end receives short of a chat, it goes on listening. */
  lemma Listens(x: End, y: End, cfg: AppConfig, read: nat)
    requires Listening(x, cfg, read) && read < |y.local.sent| && y.local.sent[read].mtype != CHAT_MESSAGE
    ensures Deliverable(x, y) && Listening(EndStep(x, y, Deliver), cfg, read + 1)
  {
    hide EndStep;
    DeliverPlain(x, y);
  }

  lemma HearsHello(x: End, y: End, cfg: AppConfig, other: AppConfig)
    requires Midway(x, cfg, 1, 0) && y.local.sent != [] && y.local.sent[0] == HelloPacket(other)
    requires other.deviceId != ""
    ensures var x' := EndStep(x, y, Deliver);
      if cfg.requireAuth
      then Midway(x', cfg, 2, 1) && x'.local.sent[1].mtype == AUTH_REQUEST && x'.local.sent[0] == x.local.sent[0]
      else Midway(x', cfg, 1, 1) && Authenticated(x'.local) && x'.local.sent == x.local.sent
  {
    HelloType(other);
    hide LocalStep, HelloPacket, AuthResponsePacket, AuthOkPacket, ValidHello, EndStep, Authenticated;
    Listens(x, y, cfg, 0);
    DeliverIs(x, y);
    HonestHello(other);
    HelloAnswer(cfg, x.local, HelloPacket(other));
  }

  lemma HearsRequest(x: End, y: End, cfg: AppConfig)
    requires Midway(x, cfg, 2, 1) && |y.local.sent| > 1 && y.local.sent[1].mtype == AUTH_REQUEST
    ensures var x' := EndStep(x, y, Deliver);
      && Midway(x', cfg, 3, 2) && x'.local.sent[1] == x.local.sent[1] && x'.local.sent[2] == AuthResponsePacket(cfg)
  {
    hide LocalStep, AuthResponsePacket, EndStep;
    Listens(x, y, cfg, 1);
    DeliverIs(x, y);
    RequestAnswer(cfg, x.local, y.local.sent[1]);
  }

  lemma HearsAnswer(x: End, y: End, cfg: AppConfig, other: AppConfig)
    requires Midway(x, cfg, 3, 2) && |y.local.sent| > 2 && y.local.sent[2] == AuthResponsePacket(other)
    requires Accepted(cfg, other)
    ensures var x' := EndStep(x, y, Deliver);
      && Midway(x', cfg, 4, 3) && x'.local.sent == x.local.sent + [AuthOkPacket()] && Authenticated(x'.local)
  {
    PacketTypes(other);
    AcceptedIs(cfg, other);
    hide LocalStep, AuthResponsePacket, AuthOkPacket, EndStep, Authenticated, Accepted, Accepts;
    Listens(x, y, cfg, 2);
    DeliverIs(x, y);
    AcceptedAnswer(cfg, x.local, AuthResponsePacket(other));
  }

  lemma AcceptedIs(x: AppConfig, y: AppConfig)
    ensures Accepted(x, y) <==> Accepts(x, AuthResponsePacket(y))
  {
    hide Accepts, AuthResponsePacket;
  }

  lemma SaysChat(x: End, y: End, m: Message.ChatMessage, cfg: AppConfig, sent: nat, read: nat)
    requires Midway(x, cfg, sent, read) && Authenticated(x.local) && Spoken(cfg, m)
    ensures var x' := EndStep(x, y, Own(Say(m)));
      x'.local.sent == x.local.sent + [ChatPacket(m)] && |x.local.sent| == sent
  {
    hide ChatPacket;
  }

  lemma Losing(x: End, y: End, m: Message.ChatMessage, cfg: AppConfig, read: nat)
    requires Listening(x, cfg, read) && |y.local.sent| == read + 1 && y.local.sent[read] == ChatPacket(m)
    requires !Authenticated(x.local)
    ensures Unready(x, y) && (Loses(x, y) <==> m.msgId != "" && m.senderId != "")
  {
    hide ChatPacket, ChatOf, Authenticated;
    ChatType(m);
    ChatOfMessage(m);
  }

  lemma ChatOfMessage(m: Message.ChatMessage)
    ensures ChatOf(ChatPacket(m)) != [] <==> m.msgId != "" && m.senderId != ""
  {
    hide Message.FromJson, Message.ToJson;
    Message.RefusedExactly(m);
  }

  lemma ChatIsSpoken(cfg: AppConfig, id: string, time: Message.int64, text: string)
    ensures var m := Chat(cfg, id, time, text); Spoken(cfg, m) && m.msgId == id && m.senderId == cfg.deviceId
  {}

  lemma MidwayListens(x: End, cfg: AppConfig, sent: nat, read: nat)
    requires Midway(x, cfg, sent, read)
    ensures Listening(x, cfg, read) && |x.local.sent| == sent
  {}

  /** B joins, hears A's HELLO and may broadcast at once; A does not hold B authenticated on its HELLO alone, because
      it wants an answer or because B has no name. So whatever B broadcasts is dropped, in a run of six moves; it is
      a well-formed chat that is lost exactly when its id is not empty and B has a name. */
  lemma EarlyChatIsLost(ca: AppConfig, cb: AppConfig, id: string, time: Message.int64, text: string) returns (d: Duo)
    requires ca.deviceId != "" && !cb.requireAuth && (ca.requireAuth || cb.deviceId == "")
    ensures Reachable(ca, cb, d, 5) && Unready(d.a, d.b) && (Loses(d.a, d.b) <==> id != "" && cb.deviceId != "")
  {
    hide *;
    var m := Chat(cb, id, time, text);
    ChatIsSpoken(cb, id, time, text);
    var a0, b0 := Fresh(ca), Fresh(cb);
    var a1 := EndStep(a0, b0, Connect(false));
    var b1 := EndStep(b0, a1, Connect(false));
    var b2 := EndStep(b1, a1, Deliver);
    var b3 := EndStep(b2, a1, Own(Say(m)));
    var a2 := EndStep(a1, b3, Deliver);
    d := Duo(a2, b3);
    ReachStart(ca, cb);
    ReachA(ca, cb, a0, b0, 0, Connect(false));
    ReachB(ca, cb, a1, b0, 1, Connect(false));
    ReachB(ca, cb, a1, b1, 2, Deliver);
    ReachB(ca, cb, a1, b2, 3, Own(Say(m)));
    ReachA(ca, cb, a1, b3, 4, Deliver);
    Starts(ca, b0);
    Starts(cb, a1);
    MidwayListens(a1, ca, 1, 0);
    MidwayListens(b1, cb, 1, 0);
    HearsHello(b1, a1, cb, ca);
    SaysChat(b2, a1, m, cb, 1, 1);
    HelloType(cb);
    Listens(a1, b3, ca, 0);
    ReachInv(ca, cb, d, 5);
    NotYet(a2, b3, ca, cb);
    Losing(a2, b3, m, ca, 1);
  }

  lemma HelloType(cfg: AppConfig)
    ensures HelloPacket(cfg).mtype == HELLO && AuthResponsePacket(cfg).mtype == AUTH_RESPONSE
    ensures AuthOkPacket().mtype == AUTH_OK
  {}

  lemma NotYet(x: End, y: End, cx: AppConfig, cy: AppConfig)
    requires Inv(Duo(x, y)) && x.cfg == cx && y.cfg == cy && Listening(x, cx, 1)
    requires cx.requireAuth || cy.deviceId == ""
    ensures !Authenticated(x.local)
  {
    hide Accepted, HelloPacket, AuthResponsePacket, Open, Ordered;
    HalfShape(y, x);
    PacketTypes(y.cfg);
    assert PacketShape(y.cfg, x.cfg, y.local.sent, 0);
  }

  /** Both ask for authentication, B accepts A's answer and A does not accept B's. B's chat follows its own answer
      on the wire, so A has hung up when it arrives, but what is already received still reaches the session: the
      broadcast is dropped, in a run of eleven moves. */
  lemma RefusedChatIsLost(ca: AppConfig, cb: AppConfig, id: string, time: Message.int64, text: string)
    returns (d: Duo)
    requires ca.requireAuth && cb.requireAuth && ca.deviceId != "" && cb.deviceId != ""
    requires Accepted(cb, ca) && !Accepted(ca, cb)
    ensures Reachable(ca, cb, d, 10) && Unready(d.a, d.b) && (Loses(d.a, d.b) <==> id != "")
  {
    hide *;
    var m := Chat(cb, id, time, text);
    ChatIsSpoken(cb, id, time, text);
    var a0, b0 := Fresh(ca), Fresh(cb);
    var a1 := EndStep(a0, b0, Connect(false));
    var b1 := EndStep(b0, a1, Connect(false));
    var a2 := EndStep(a1, b1, Deliver);
    var b2 := EndStep(b1, a2, Deliver);
    var a3 := EndStep(a2, b2, Deliver);
    var b3 := EndStep(b2, a3, Deliver);
    var b4 := EndStep(b3, a3, Deliver);
    var b5 := EndStep(b4, a3, Own(Say(m)));
    var a4 := EndStep(a3, b5, Deliver);
    var a5 := EndStep(a4, b5, Deliver);
    d := Duo(a5, b5);
    ReachStart(ca, cb);
    ReachA(ca, cb, a0, b0, 0, Connect(false));
    ReachB(ca, cb, a1, b0, 1, Connect(false));
    ReachA(ca, cb, a1, b1, 2, Deliver);
    ReachB(ca, cb, a2, b1, 3, Deliver);
    ReachA(ca, cb, a2, b2, 4, Deliver);
    ReachB(ca, cb, a3, b2, 5, Deliver);
    ReachB(ca, cb, a3, b3, 6, Deliver);
    ReachB(ca, cb, a3, b4, 7, Own(Say(m)));
    ReachA(ca, cb, a3, b5, 8, Deliver);
    ReachA(ca, cb, a4, b5, 9, Deliver);
    Starts(ca, b0);
    Starts(cb, a1);
    MidwayListens(a1, ca, 1, 0);
    MidwayListens(b1, cb, 1, 0);
    HearsHello(a1, b1, ca, cb);
    MidwayListens(a2, ca, 2, 1);
    HearsHello(b1, a2, cb, ca);
    MidwayListens(b2, cb, 2, 1);
    HearsRequest(a2, b2, ca);
    MidwayListens(a3, ca, 3, 2);
    HearsRequest(b2, a3, cb);
    MidwayListens(b3, cb, 3, 2);
    HearsAnswer(b3, a3, cb, ca);
    MidwayListens(b4, cb, 4, 3);
    SaysChat(b4, a3, m, cb, 4, 3);
    HelloType(cb);
    Listens(a3, b5, ca, 2);
    Listens(a4, b5, ca, 3);
    ReachInv(ca, cb, d, 10);
    NeverEarned(a5, b5);
    Losing(a5, b5, m, ca, 4);
  }

  lemma NeverEarned(x: End, y: End)
    requires Inv(Duo(x, y)) && x.cfg.requireAuth && !Accepted(x.cfg, y.cfg)
    ensures !Authenticated(x.local)
  {
    hide LinkOk, Accepted;
  }

  /** The moment of loss is unpunctual, and the next is lossy, seen from either side. */
  lemma LossShows(ca: AppConfig, cb: AppConfig, d: Duo, n: nat)
    requires Reachable(ca, cb, d, n) && Unready(d.a, d.b)
    ensures exists moves :: !Punctual(Run(ca, cb, moves))
    ensures exists moves :: !Punctual(Run(cb, ca, moves))
    ensures Loses(d.a, d.b) ==> exists moves :: !Lossless(Run(ca, cb, moves))
    ensures Loses(d.a, d.b) ==> exists moves :: !Lossless(Run(cb, ca, moves))
  {
    hide EndStep, ChatOf, Run, Authenticated;
    var moves :| |moves| == n && Run(ca, cb, moves) == d;
    assert !Punctual(Run(ca, cb, moves));
    RunSwapped(ca, cb, moves);
    assert !Punctual(Run(cb, ca, Swapped(moves)));
    if Loses(d.a, d.b) {
      var more := moves + [MoveA(Deliver)];
      RunOne(ca, cb, moves, MoveA(Deliver));
      DropsChat(d.a, d.b);
      assert !Lossless(Run(ca, cb, more));
      RunSwapped(ca, cb, more);
      assert !Lossless(Run(cb, ca, Swapped(more)));
    }
  }

  lemma RunOne(ca: AppConfig, cb: AppConfig, moves: seq<Move>, m: Move)
    ensures Run(ca, cb, moves + [m]) == Step(Run(ca, cb, moves), m)
  {
    hide Step;
    assert (moves + [m])[..|moves|] == moves;
  }

  lemma DropsChat(x: End, y: End)
    requires Loses(x, y)
    ensures !NothingLost(EndStep(x, y, Deliver), y)
  {
    hide ChatOf, Message.FromJson;
    assert x.heard + [] == x.heard;
    assert y.local.sent[..x.read + 1][..x.read] == y.local.sent[..x.read];
  }

  ghost predicate Lossless(d: Duo) { NothingLost(d.a, d.b) && NothingLost(d.b, d.a) }

  /** Whoever chats is held authenticated when the chat arrives. */
  ghost predicate Punctual(d: Duo) {
    (ChatNext(d.a, d.b) ==> Authenticated(d.a.local)) && (ChatNext(d.b, d.a) ==> Authenticated(d.b.local))
  }

  /** Exactly when no well-formed chat is ever dropped on a registered connection, in any run, and exactly when no
      chat frame at all ever arrives before its sender is authenticated. The two differ for a side without a name
      that is not asked for authentication: it may broadcast, but nothing it says is well formed. */
  lemma NoChatDroppedExactly(ca: AppConfig, cb: AppConfig)
    ensures (forall moves :: Lossless(Run(ca, cb, moves))) <==> ChatsKept(ca, cb)
    ensures (forall moves :: Punctual(Run(ca, cb, moves))) <==> ChatsSafe(ca, cb)
  {
    hide Run, NothingLost, ChatNext, Accepted, Authenticated;
    if ChatsKept(ca, cb) {
      forall moves ensures Lossless(Run(ca, cb, moves)) { RunLosesNothing(ca, cb, moves); }
    } else {
      NotKeptLoses(ca, cb);
    }
    if ChatsSafe(ca, cb) {
      forall moves ensures Punctual(Run(ca, cb, moves)) { ChatArrivesAuthenticated(ca, cb, moves); }
    } else {
      UnsafeIsUnpunctual(ca, cb);
    }
  }

  lemma NotKeptLoses(ca: AppConfig, cb: AppConfig)
    requires !ChatsKept(ca, cb)
    ensures exists moves :: !Lossless(Run(ca, cb, moves))
  {
    hide Run, Lossless, Accepted, Loses, Unready, Reachable;
    if ca.requireAuth && !cb.requireAuth {
      var d := EarlyChatIsLost(ca, cb, "1", 0, "");
      LossShows(ca, cb, d, 5);
    } else if cb.requireAuth && !ca.requireAuth {
      var d := EarlyChatIsLost(cb, ca, "1", 0, "");
      LossShows(cb, ca, d, 5);
    } else if Accepted(cb, ca) {
      var d := RefusedChatIsLost(ca, cb, "1", 0, "");
      LossShows(ca, cb, d, 10);
    } else {
      var d := RefusedChatIsLost(cb, ca, "1", 0, "");
      LossShows(cb, ca, d, 10);
    }
  }

  lemma UnsafeIsUnpunctual(ca: AppConfig, cb: AppConfig)
    requires !ChatsSafe(ca, cb)
    ensures exists moves :: !Punctual(Run(ca, cb, moves))
  {
    hide Run, Punctual, Accepted, Loses, Unready, Reachable;
    if ca.deviceId != "" && !cb.requireAuth && (ca.requireAuth || cb.deviceId == "") {
      var d := EarlyChatIsLost(ca, cb, "1", 0, "");
      LossShows(ca, cb, d, 5);
    } else if cb.deviceId != "" && !ca.requireAuth && (cb.requireAuth || ca.deviceId == "") {
      var d := EarlyChatIsLost(cb, ca, "1", 0, "");
      LossShows(cb, ca, d, 5);
    } else if Accepted(cb, ca) {
      var d := RefusedChatIsLost(ca, cb, "1", 0, "");
      LossShows(ca, cb, d, 10);
    } else {
      var d := RefusedChatIsLost(cb, ca, "1", 0, "");
      LossShows(cb, ca, d, 10);
    }
  }
}

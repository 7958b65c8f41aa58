/** How the handshake of two sessions ends, and that it ends. */
module Handshake {
  import opened Text
  import opened Protocol
  import opened Connection
  import opened Config
  import opened ChatSession
  import opened TwoParty
  import Message
  import SessionJson

  // ---- The handshake ---------------------------------------------------------

  /** B's answer, received as frame `i`, reads as A's secret. */
  ghost predicate AnswerAt(sent: seq<Packet>, i: nat, cb: AppConfig, secret: string) {
    && i < |sent| && sent[i] == AuthResponsePacket(cb)
    && SessionJson.ExtractStr(sent[i].payload, "response") == secret
  }

  /** With authentication required and a secret set at A, A marks an honest B authenticated only
      after it received an answer that B transmitted and that decodes to A's secret. */
  lemma HandshakeSound(ca: AppConfig, cb: AppConfig, moves: seq<Move>)
    requires ca.requireAuth && ca.pskHash != ""
    ensures var d := Run(ca, cb, moves);
      Authenticated(d.a.local) ==>
        && (exists i: nat :: i < d.a.read && AnswerAt(d.b.local.sent, i, cb, ca.pskHash))
        && SessionJson.Garbled(ResponseText(cb)) == ca.pskHash
  {
    hide LinkOk, SessionJson.Garbled, AuthResponsePacket, Authenticated, SessionJson.ExtractStr, LogShape;
    RunKeeps(ca, cb, moves);
    RunConfigs(ca, cb, moves);
    HonestAnswer(ca, cb);
    var d := Run(ca, cb, moves);
    if Authenticated(d.a.local) {
      var log := d.b.local.sent[..d.a.read];
      var i :| 0 <= i < |log| && log[i].mtype == AUTH_RESPONSE;
      HalfShape(d.b, d.a);
      HonestAnswerAt(cb, ca, d.b.local.sent, i);
      assert AnswerAt(d.b.local.sent, i, cb, ca.pskHash);
    }
  }

  lemma HonestAnswerAt(x: AppConfig, y: AppConfig, log: seq<Packet>, i: nat)
    requires LogShape(x, y, log) && i < |log| && log[i].mtype == AUTH_RESPONSE
    ensures log[i] == AuthResponsePacket(x)
  {
    hide HelloPacket, AuthResponsePacket, Accepted, Has;
    assert PacketShape(x, y, log, i);
  }

  /** A secret with an unreadable control character never authenticates, even against itself. */
  lemma ControlSecretNeverAuthenticates(ca: AppConfig, cb: AppConfig, moves: seq<Move>)
    requires ca.requireAuth && ca.pskHash != "" && cb.pskHash == ca.pskHash
    requires !SessionJson.NoControl(ca.pskHash)
    ensures !Authenticated(Run(ca, cb, moves).a.local)
  {
    hide Run;
    HandshakeSound(ca, cb, moves);
    SessionJson.GarbledLength(ca.pskHash);
  }

  /** Both name themselves, and whoever asks for an answer accepts the other's. */
  predicate Matching(ca: AppConfig, cb: AppConfig) {
    && ca.deviceId != "" && cb.deviceId != ""
    && (ca.requireAuth ==> Accepted(ca, cb)) && (cb.requireAuth ==> Accepted(cb, ca))
  }

  /** Equal secrets without unreadable control characters match. */
  lemma SameSecretMatches(ca: AppConfig, cb: AppConfig)
    requires ca.deviceId != "" && cb.deviceId != ""
    requires ca.requireAuth || cb.requireAuth ==> ca.pskHash == cb.pskHash && SessionJson.NoControl(ca.pskHash)
    ensures Matching(ca, cb)
    ensures ca.requireAuth == cb.requireAuth ==> ChatsSafe(ca, cb) && ChatsKept(ca, cb)
  {
    hide SessionJson.Garbled, Accepts, AuthResponsePacket;
    HonestAnswer(ca, cb);
    HonestAnswer(cb, ca);
    SessionJson.GarbledLength(ca.pskHash);
  }

  /** Both connect, the sockets hold, and nobody disconnects, stops or is removed. */
  predicate Calm(act: Act) {
    match act
    case Connect(broken) => !broken
    case Deliver => true
    case Own(e) => e.Idle? || e.Say? || e.SayTo? || e.Ping?
  }

  predicate CalmRun(moves: seq<Move>) { forall i :: 0 <= i < |moves| ==> Calm(moves[i].act) }

  /** Nothing on the wire ends the connection. */
  ghost predicate Peaceful(x: End) {
    (x.added ==> Active(x.local)) && !Has(x.local.sent, DISCONNECT)
  }

  lemma PutPeaceful(l: Local, p: Packet)
    requires Active(l) && !Has(l.sent, DISCONNECT) && p.mtype != DISCONNECT
    ensures Active(Put(l, p)) && !Has(Put(l, p).sent, DISCONNECT)
  {
    HasGrows(l.sent, p, DISCONNECT);
  }

  lemma CalmDeliver(x: AppConfig, y: AppConfig, l: Local, log: seq<Packet>, p: Packet)
    requires Matching(x, y) && LogShape(y, x, log + [p]) && p.mtype != DISCONNECT
    requires Active(l) && !Has(l.sent, DISCONNECT)
    ensures var l' := LocalStep(x, l, Receive(p)); Active(l') && !Has(l'.sent, DISCONNECT)
  {
    FirstIsHello(y, x, log, p);
    ReceiveIsOnPacket(x, l, p);
    PacketCases(x, l, p);
    HonestHello(y);
    PacketTypes(x);
    hide LogShape, Has, LocalStep, OnPacket, OnHello, OnAuthResponse, Put, Hang, Transmit, HelloPacket, AuthOkPacket,
      AuthResponsePacket, PongPacket, Accepts, ValidHello;
    if p.mtype == HELLO {
      HelloAnswer(x, l, p);
      HelloSends(x, l, p);
    } else if p.mtype == AUTH_REQUEST {
      PutPeaceful(l, AuthResponsePacket(x));
    } else if p.mtype == AUTH_RESPONSE {
      AcceptedAnswer(x, l, p);
      HasGrows(l.sent, AuthOkPacket(), DISCONNECT);
    } else if p.mtype == PING {
      PutPeaceful(l, PongPacket());
    }
  }

  lemma HelloSends(cfg: AppConfig, l: Local, p: Packet)
    requires Active(l) && ValidHello(p) && !Has(l.sent, DISCONNECT)
    ensures !Has(LocalStep(cfg, l, Receive(p)).sent, DISCONNECT)
  {
    HelloAnswer(cfg, l, p);
    hide LocalStep, ValidHello;
    var sent := LocalStep(cfg, l, Receive(p)).sent;
    if cfg.requireAuth {
      assert sent == l.sent + [sent[|l.sent|]];
      HasGrows(l.sent, sent[|l.sent|], DISCONNECT);
    }
  }

  lemma CalmOwn(cfg: AppConfig, l: Local, e: LocalEvent)
    requires Active(l) && !Has(l.sent, DISCONNECT) && Calm(Own(e))
    ensures var l' := LocalStep(cfg, l, e); Active(l') && !Has(l'.sent, DISCONNECT)
  {
    var p := CalmPuts(cfg, l, e);
    hide *;
    PutPeaceful(l, p);
  }

  lemma CalmPuts(cfg: AppConfig, l: Local, e: LocalEvent) returns (p: Packet)
    requires Active(l) && Calm(Own(e))
    ensures p.mtype != DISCONNECT && (LocalStep(cfg, l, e) == l || LocalStep(cfg, l, e) == Put(l, p))
  {
    PacketTypes(cfg);
    hide Put, ChatPacket, PingPacket, Forgotten, HelloPacket, AuthResponsePacket, AuthRequestPacket;
    match e
    case Say(m) =>
      ChatType(m);
      p := ChatPacket(m);
    case SayTo(_, m) =>
      ChatType(m);
      p := ChatPacket(m);
    case _ => p := PingPacket();
  }

  lemma CalmConnect(cfg: AppConfig)
    ensures var l' := LocalStep(cfg, UNKNOWN_ID, Adopt(false)); Active(l') && !Has(l'.sent, DISCONNECT)
  {
    PacketTypes(cfg);
    Connected(cfg, Fresh(cfg));
    hide HelloPacket, LocalStep, AuthResponsePacket, AuthRequestPacket, AuthOkPacket, AuthFailPacket, PingPacket,
      PongPacket;
    var l' := LocalStep(cfg, UNKNOWN_ID, Adopt(false));
    assert l'.sent == [HelloPacket(cfg)];
  }

  lemma CalmStep(x: End, y: End, a: Act)
    requires Matching(x.cfg, y.cfg) && Half(x, y) && Half(y, x) && Peaceful(x) && Peaceful(y) && Calm(a)
    ensures Peaceful(EndStep(x, y, a))
  {
    hide LocalStep, Active, LinkOk, Earned, Matching, Heard, LogShape;
    HalfShape(y, x);
    match a {
      case Connect(broken) => CalmConnect(x.cfg);
      case Deliver =>
        if Deliverable(x, y) {
          var log, p := y.local.sent[..x.read], y.local.sent[x.read];
          assert y.local.sent[..x.read + 1] == log + [p];
          ShapeOfPrefix(y.cfg, x.cfg, y.local.sent, x.read + 1);
          CalmDeliver(x.cfg, y.cfg, x.local, log, p);
        }
      case Own(e) =>
        if x.added { CalmOwn(x.cfg, x.local, e); } else { NothingOwn(x.cfg, e); }
    }
  }

  lemma {:induction false} CalmKeeps(ca: AppConfig, cb: AppConfig, moves: seq<Move>)
    requires Matching(ca, cb) && CalmRun(moves)
    ensures var d := Run(ca, cb, moves); Peaceful(d.a) && Peaceful(d.b)
  {
    hide Peaceful, EndStep, Matching, Half, Calm;
    if moves == [] {
      FreshPeaceful(ca);
      FreshPeaceful(cb);
    } else {
      var k := |moves| - 1;
      assert forall i :: 0 <= i < k ==> moves[..k][i] == moves[i];
      CalmKeeps(ca, cb, moves[..k]);
      RunKeeps(ca, cb, moves[..k]);
      RunConfigs(ca, cb, moves[..k]);
      MatchingSymmetric(ca, cb);
      var d := Run(ca, cb, moves[..k]);
      match moves[k]
      case MoveA(act) => CalmStep(d.a, d.b, act);
      case MoveB(act) => CalmStep(d.b, d.a, act);
    }
  }

  lemma MatchingSymmetric(ca: AppConfig, cb: AppConfig)
    requires Matching(ca, cb)
    ensures Matching(cb, ca)
  {
    hide Accepted;
  }

  lemma FreshPeaceful(cfg: AppConfig)
    ensures Peaceful(Fresh(cfg))
  {}

  /** The handshake decided: in every run in which both connect and nothing disturbs the connection, once both wires
      are drained, both sides hold each other authenticated if and only if the configurations match. */
  lemma HandshakeOutcome(ca: AppConfig, cb: AppConfig, moves: seq<Move>)
    requires CalmRun(moves)
    ensures var d := Run(ca, cb, moves);
      d.a.added && d.b.added && d.a.read == |d.b.local.sent| && d.b.read == |d.a.local.sent| ==>
        (Authenticated(d.a.local) && Authenticated(d.b.local) <==> Matching(ca, cb))
  {
    hide Run, LinkOk, Accepted, CalmRun, Active, Authenticated;
    RunKeeps(ca, cb, moves);
    RunConfigs(ca, cb, moves);
    HandshakeSucceeds(ca, cb, moves);
    if Matching(ca, cb) { CalmKeeps(ca, cb, moves); }
  }

  // ---- Quiescence ------------------------------------------------------------

  function Weight(p: Packet): nat {
    match p.mtype
    case HELLO => 4
    case AUTH_REQUEST => 3
    case AUTH_RESPONSE => 2
    case PING => 2
    case _ => 1
  }

  /** The weight of the frames in a log from `from` on. */
  function InFlight(log: seq<Packet>, from: nat): nat
    decreases |log| - from
  {
    if from >= |log| then 0 else Weight(log[from]) + InFlight(log, from + 1)
  }

  /** A connection that can still answer a disconnect. */
  function OpenWeight(l: Local): nat { if l.link.Some? && l.link.value.running then 2 else 0 }

  function Measure(d: Duo): nat {
    Load(d.a.local, d.b.read) + Load(d.b.local, d.a.read)
  }

  lemma {:induction false} InFlightGrows(log: seq<Packet>, p: Packet, from: nat)
    requires from <= |log|
    ensures InFlight(log + [p], from) == InFlight(log, from) + Weight(p)
    decreases |log| - from
  {
    if from < |log| {
      InFlightGrows(log, p, from + 1);
      assert (log + [p])[from] == log[from];
    } else {
      assert (log + [p])[from] == p;
    }
  }

  /** What a side still has in flight, and what it can still add by closing. */
  function Load(l: Local, from: nat): nat { InFlight(l.sent, from) + OpenWeight(l) }

  lemma PutCost(l: Local, p: Packet, from: nat)
    requires from <= |l.sent|
    ensures var l' := Put(l, p);
      && from <= |l'.sent|
      && Load(l', from) <= Load(l, from) + (if OpenWeight(l) == 0 then 0 else Weight(p))
      && OpenWeight(l') == OpenWeight(l)
  {
    hide Weight;
    InFlightGrows(l.sent, p, from);
    assert l.sent + [] == l.sent;
  }

  lemma HangCost(l: Local, reason: string, from: nat)
    requires from <= |l.sent|
    ensures var l' := Hang(l, reason); from <= |l'.sent| && Load(l', from) <= Load(l, from)
  {
    hide InFlight, Put;
    PutCost(l, Packet(DISCONNECT, reason), from);
  }

  lemma FailCost(l: Local, from: nat)
    requires from <= |l.sent|
    ensures var l' := Hang(Put(l, AuthFailPacket()), AuthFailed());
      from <= |l'.sent| && Load(l', from) <= Load(l, from) + 1
  {
    hide InFlight, Put, AuthFailPacket, AuthFailed, Hang, HelloPacket, AuthResponsePacket, Load, OpenWeight;
    FailType();
    PutCost(l, AuthFailPacket(), from);
    HangCost(Put(l, AuthFailPacket()), AuthFailed(), from);
  }

  /** What a frame makes its receiver send weighs less than the frame and what it closes. */
  lemma ReceiveCost(cfg: AppConfig, l: Local, p: Packet, from: nat)
    requires from <= |l.sent|
    ensures var l' := LocalStep(cfg, l, Receive(p)); from <= |l'.sent| && Load(l', from) < Load(l, from) + Weight(p)
  {
    hide *;
    ReceiveIsOnPacket(cfg, l, p);
    PacketCases(cfg, l, p);
    WeightCases(p);
    if p.mtype == HELLO { HelloCost(cfg, l, p, from); }
    else if p.mtype == AUTH_REQUEST { RequestCost(cfg, l, from); }
    else if p.mtype == AUTH_RESPONSE { AnswerCost(cfg, l, p, from); }
    else if p.mtype == PING { PongCost(cfg, l, from); }
    else if p.mtype == DISCONNECT { HangCost(l, DisconnectRequested(), from); }
  }

  lemma WeightCases(p: Packet)
    ensures Weight(p) >= 1 && (p.mtype == HELLO ==> Weight(p) == 4) && (p.mtype == AUTH_REQUEST ==> Weight(p) == 3)
    ensures p.mtype == AUTH_RESPONSE || p.mtype == PING ==> Weight(p) == 2
  {}

  lemma RequestCost(cfg: AppConfig, l: Local, from: nat)
    requires from <= |l.sent|
    ensures var l' := Put(l, AuthResponsePacket(cfg)); from <= |l'.sent| && Load(l', from) <= Load(l, from) + 2
  {
    hide Load, Put, OpenWeight, AuthResponsePacket, HelloPacket, AuthRequestPacket;
    PacketTypes(cfg);
    PutCost(l, AuthResponsePacket(cfg), from);
  }

  lemma PongCost(cfg: AppConfig, l: Local, from: nat)
    requires from <= |l.sent|
    ensures var l' := Put(l, PongPacket()); from <= |l'.sent| && Load(l', from) <= Load(l, from) + 1
  {
    hide Load, Put, OpenWeight, PongPacket, AuthResponsePacket, HelloPacket, AuthRequestPacket;
    PacketTypes(cfg);
    PutCost(l, PongPacket(), from);
  }

  lemma HelloCost(cfg: AppConfig, l: Local, p: Packet, from: nat)
    requires from <= |l.sent|
    ensures var l' := OnHello(cfg, l, p); from <= |l'.sent| && Load(l', from) <= Load(l, from) + 3
  {
    hide Load, Hang, InvalidHello, ValidHello, Introduced, SessionJson.ExtractStr;
    HangCost(l, InvalidHello(), from);
    IntroducedCost(cfg, l, PeerOf(l).(
      deviceId := SessionJson.ExtractStr(p.payload, "device_id"),
      displayName := SessionJson.ExtractStr(p.payload, "display_name"),
      platform := SessionJson.ExtractStr(p.payload, "platform")), from);
  }

  lemma IntroducedCost(cfg: AppConfig, l: Local, who: PeerInfo, from: nat)
    requires from <= |l.sent|
    ensures var l' := Introduced(cfg, l, who); from <= |l'.sent| && Load(l', from) <= Load(l, from) + 3
  {
    var met := l.(peer := Some(who.(state := AUTHENTICATING)));
    var up := who.(state := AUTHENTICATED);
    SameLoad(l, met.peer, l.notes, from);
    SameLoad(l, Some(up), l.notes + [Up(up)], from);
    hide InFlight, Put, AuthRequestPacket, AuthResponsePacket, HelloPacket, Load, OpenWeight;
    if cfg.requireAuth {
      PacketTypes(cfg);
      PutCost(met, AuthRequestPacket(cfg, who.deviceId), from);
    }
  }

  lemma SameLoad(l: Local, peer: Option<PeerInfo>, notes: seq<Note>, from: nat)
    ensures Load(l.(peer := peer, notes := notes), from) == Load(l, from)
  {
    hide InFlight;
  }

  lemma AnswerCost(cfg: AppConfig, l: Local, p: Packet, from: nat)
    requires from <= |l.sent|
    ensures var l' := OnAuthResponse(cfg, l, p); from <= |l'.sent| && Load(l', from) <= Load(l, from) + 1
  {
    hide InFlight, Put, Hang, Accepts, AuthOkPacket, AuthFailPacket, AuthFailed;
    FailType();
    FailCost(l, from);
    var info := PeerOf(l).(state := AUTHENTICATED);
    PutCost(l.(peer := Some(info), notes := l.notes + [Up(info)]), AuthOkPacket(), from);
  }

  /** Without new input every delivery lowers the measure, whatever the configurations. */
  lemma DeliveryLowersMeasure(d: Duo, m: Move)
    requires m.act.Deliver? && d.a.read <= |d.b.local.sent| && d.b.read <= |d.a.local.sent|
    requires if m.MoveA? then Deliverable(d.a, d.b) else Deliverable(d.b, d.a)
    ensures Measure(Step(d, m)) < Measure(d)
    ensures var d' := Step(d, m); d'.a.read <= |d'.b.local.sent| && d'.b.read <= |d'.a.local.sent|
  {
    hide LocalStep, Heard, OpenWeight, Weight;
    match m
    case MoveA(_) =>
      ReceiveCost(d.a.cfg, d.a.local, d.b.local.sent[d.a.read], d.b.read);
    case MoveB(_) =>
      ReceiveCost(d.b.cfg, d.b.local, d.a.local.sent[d.b.read], d.a.read);
  }

  /** From any state, once input stops, at most Measure(d) frames can still be delivered: the
      sessions cannot keep answering each other. */
  lemma {:induction false} Quiescence(d: Duo, moves: seq<Move>)
    requires d.a.read <= |d.b.local.sent| && d.b.read <= |d.a.local.sent|
    requires DeliveriesOnly(d, moves)
    ensures |moves| <= Measure(d)
    decreases |moves|
  {
    if moves != [] {
      hide Measure, Step;
      DeliveryLowersMeasure(d, moves[0]);
      Quiescence(Step(d, moves[0]), moves[1..]);
    }
  }

  /** Every move delivers a frame that is there. */
  ghost predicate DeliveriesOnly(d: Duo, moves: seq<Move>)
    decreases |moves|
  {
    moves == [] ||
    (&& moves[0].act.Deliver?
     && (if moves[0].MoveA? then Deliverable(d.a, d.b) else Deliverable(d.b, d.a))
     && DeliveriesOnly(Step(d, moves[0]), moves[1..]))
  }
}

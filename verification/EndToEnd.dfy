/** A broadcast text from one session's wire to the other session's message callback: printing, framing,
    arbitrary chunks, reading, dispatch and scanning together. */
module EndToEnd {
  import opened Text
  import opened Protocol
  import opened Connection
  import opened Config
  import opened ChatSession
  import opened FlatJson
  import opened Message
  import SessionHistory
  import TwoParty

  // ---- The wire carries packets ----------------------------------------------

  /** A packet of octets within the receiver's payload limit. */
  ghost predicate Fits(p: Packet, max: nat) {
    ByteText(p.payload) && |p.payload| <= max && |p.payload| < 0x1_0000_0000
  }

  ghost predicate AllFit(ps: seq<Packet>, max: nat) { forall i :: 0 <= i < |ps| ==> Fits(ps[i], max) }

  function FramesOf(ps: seq<Packet>): (fs: seq<Frame>)
    ensures |fs| == |ps|
  {
    seq(|ps|, i requires 0 <= i < |ps| => FrameOf(ps[i]))
  }

  function PacketsOf(fs: seq<Frame>): (ps: seq<Packet>)
    ensures |ps| == |fs|
  {
    seq(|fs|, i requires 0 <= i < |fs| => PacketOf(fs[i]))
  }

  lemma PacketSurvives(p: Packet, max: nat)
    requires Fits(p, max)
    ensures PacketOf(FrameOf(p)) == p && Sendable(FrameOf(p), max)
  {
    BytesRoundTrip(p.payload);
  }

  /** The channel of the two-party model: whatever part of the bytes of these packets has arrived, in whatever
      chunks, the reader raises no exception and hands over a prefix of the packets; all of them, with nothing
      left over, once every byte has arrived. */
  lemma ChannelCarriesPackets(log: seq<Packet>, chunks: seq<seq<byte>>, max: nat)
    requires AllFit(log, max)
    requires Flatten(chunks) <= Stream(FramesOf(log))
    ensures AllFrames(chunks, max)
    ensures PacketsOf(Delivered(chunks, max)) <= log
    ensures Flatten(chunks) == Stream(FramesOf(log)) ==>
      PacketsOf(Delivered(chunks, max)) == log && After(chunks, max) == ReadingHeader([])
  {
    hide Fits, PacketOf, FrameOf, Sendable, Stream, Parse, Flatten, Delivered, After, AllFrames;
    var fs := FramesOf(log);
    forall i | 0 <= i < |log| ensures Sendable(fs[i], max) && PacketOf(fs[i]) == log[i] {
      PacketSurvives(log[i], max);
    }
    ParseStreamPrefix(fs, Flatten(chunks), max);
    ParseStream(fs, max);
    ChunkingIndependence(chunks, max);
    AfterIsParse(chunks, max);
  }

  // ---- What a connection contributes to the callback -------------------------

  datatype Tagged = Tagged(c: ConnId, msg: ChatMessage)

  function TagAll(c: ConnId, ms: seq<ChatMessage>): (ts: seq<Tagged>)
    ensures |ts| == |ms|
  {
    seq(|ms|, i requires 0 <= i < |ms| => Tagged(c, ms[i]))
  }

  /** The calls of the message callback with the connection each message came in on. */
  function CallbackLog(cfg: AppConfig, trace: seq<Event>): seq<Tagged> {
    if trace == [] then []
    else
      var before, e := trace[..|trace| - 1], trace[|trace| - 1];
      CallbackLog(cfg, before) + if e.Frame? then TagAll(e.c, Heard(LocalAfter(cfg, before, e.c), e.packet)) else []
  }

  function Untag(ts: seq<Tagged>): (ms: seq<ChatMessage>)
    ensures |ms| == |ts|
  {
    seq(|ts|, i requires 0 <= i < |ts| => ts[i].msg)
  }

  function From(ts: seq<Tagged>, c: ConnId): seq<ChatMessage> {
    if ts == [] then [] else From(ts[..|ts| - 1], c) + if ts[|ts| - 1].c == c then [ts[|ts| - 1].msg] else []
  }

  /** The messages of a session are its log without the tags. */
  lemma {:induction false} MessagesAreLogged(cfg: AppConfig, trace: seq<Event>)
    ensures MessagesAfter(cfg, trace) == Untag(CallbackLog(cfg, trace))
  {
    hide Heard, LocalAfter;
    if trace != [] {
      MessagesAreLogged(cfg, trace[..|trace| - 1]);
    }
  }

  lemma {:induction false} FromAppend(ts: seq<Tagged>, us: seq<Tagged>, c: ConnId)
    ensures From(ts + us, c) == From(ts, c) + From(us, c)
    decreases |us|
  {
    if us == [] {
      assert ts + us == ts && From(ts, c) + [] == From(ts, c);
    } else {
      assert (ts + us)[..|ts + us| - 1] == ts + us[..|us| - 1];
      FromAppend(ts, us[..|us| - 1], c);
    }
  }

  lemma HeardIsShort(l: Local, p: Packet, c: ConnId, d: ConnId)
    ensures From(TagAll(d, Heard(l, p)), c) == if c == d then Heard(l, p) else []
  {
    hide FromJson;
    var h := Heard(l, p);
    var ts := TagAll(d, h);
    if h != [] { assert ts[..0] == []; }
  }

  /** The frames that arrive on a connection, in order. */
  function FramesFrom(trace: seq<Event>, c: ConnId): seq<Packet> {
    if trace == [] then []
    else
      var e := trace[|trace| - 1];
      FramesFrom(trace[..|trace| - 1], c) + if e.Frame? && e.c == c then [e.packet] else []
  }

  /** Whatever else happens, the session holds the peer of this connection authenticated. */
  ghost predicate StaysAuthenticated(cfg: AppConfig, trace: seq<Event>, more: seq<Event>, c: ConnId) {
    forall k :: 0 <= k <= |more| ==> Authenticated(LocalAfter(cfg, trace + more[..k], c))
  }

  lemma OneMoreLogged(cfg: AppConfig, trace: seq<Event>, e: Event, c: ConnId)
    ensures From(CallbackLog(cfg, trace + [e]), c) == From(CallbackLog(cfg, trace), c) +
      if e.Frame? && e.c == c then Heard(LocalAfter(cfg, trace, c), e.packet) else []
  {
    hide LocalAfter, Heard, TagAll, From;
    var t, log := trace + [e], CallbackLog(cfg, trace);
    assert t[..|t| - 1] == trace && t[|t| - 1] == e;
    assert log + [] == log && From(log, c) + [] == From(log, c);
    if e.Frame? {
      var l := LocalAfter(cfg, trace, e.c);
      FromAppend(log, TagAll(e.c, Heard(l, e.packet)), c);
      HeardIsShort(l, e.packet, c, e.c);
    }
  }

  lemma OneMoreFrame(trace: seq<Event>, e: Event, c: ConnId)
    ensures TwoParty.ChatsIn(FramesFrom(trace + [e], c)) == TwoParty.ChatsIn(FramesFrom(trace, c)) +
      if e.Frame? && e.c == c then TwoParty.ChatOf(e.packet) else []
  {
    hide TwoParty.ChatOf, TwoParty.ChatsIn;
    var t, ps := trace + [e], FramesFrom(trace, c);
    assert t[..|t| - 1] == trace && t[|t| - 1] == e;
    if e.Frame? && e.c == c {
      assert FramesFrom(t, c) == ps + [e.packet];
      OneMoreChat(ps, e.packet);
    } else {
      assert FramesFrom(t, c) == ps + [] == ps;
      assert TwoParty.ChatsIn(ps) + [] == TwoParty.ChatsIn(ps);
    }
  }

  lemma OneMoreChat(ps: seq<Packet>, p: Packet)
    ensures TwoParty.ChatsIn(ps + [p]) == TwoParty.ChatsIn(ps) + TwoParty.ChatOf(p)
  {
    hide TwoParty.ChatOf;
    assert (ps + [p])[..|ps|] == ps;
  }

  lemma StaysSplit(cfg: AppConfig, trace: seq<Event>, more: seq<Event>, c: ConnId)
    requires more != [] && StaysAuthenticated(cfg, trace, more, c)
    ensures var before := more[..|more| - 1];
      StaysAuthenticated(cfg, trace, before, c) && Authenticated(LocalAfter(cfg, trace + before, c))
  {
    hide LocalAfter, Authenticated;
    var before := more[..|more| - 1];
    forall j | 0 <= j <= |before| ensures Authenticated(LocalAfter(cfg, trace + before[..j], c)) {
      assert before[..j] == more[..j];
    }
  }

  /** Through any further events, an authenticated connection contributes every well-formed chat that arrives
      on it, in order, and nothing else. */
  lemma {:induction false} AuthenticatedIsHeard(cfg: AppConfig, trace: seq<Event>, more: seq<Event>, c: ConnId)
    requires StaysAuthenticated(cfg, trace, more, c)
    ensures From(CallbackLog(cfg, trace + more), c) ==
      From(CallbackLog(cfg, trace), c) + TwoParty.ChatsIn(FramesFrom(more, c))
    decreases |more|
  {
    hide *;
    if more == [] {
      assert trace + more == trace;
      NoFrames(c);
    } else {
      var before, e := more[..|more| - 1], more[|more| - 1];
      assert more == before + [e];
      assert trace + more == trace + before + [e];
      StaysSplit(cfg, trace, more, c);
      AuthenticatedIsHeard(cfg, trace, before, c);
      OneMoreLogged(cfg, trace + before, e, c);
      OneMoreFrame(before, e, c);
      if e.Frame? && e.c == c { HeardIsChat(LocalAfter(cfg, trace + before, c), e.packet); }
    }
  }

  lemma NoFrames(c: ConnId)
    ensures TwoParty.ChatsIn(FramesFrom([], c)) == []
  {}

  lemma HeardIsChat(l: Local, p: Packet)
    requires Authenticated(l)
    ensures Heard(l, p) == TwoParty.ChatOf(p)
  {
    hide FromJson;
  }

  // ---- What broadcasts put on the wire ---------------------------------------

  datatype Saying = Saying(id: string, time: int64, text: string)

  function Broadcasts(says: seq<Saying>): (es: seq<Event>)
    ensures |es| == |says|
  {
    seq(|says|, i requires 0 <= i < |says| => Event.Broadcast(says[i].id, says[i].time, says[i].text))
  }

  function ChatFrom(cfg: AppConfig, s: Saying): ChatMessage { Chat(cfg, s.id, s.time, s.text) }

  function Chats(cfg: AppConfig, says: seq<Saying>): (ms: seq<ChatMessage>)
    ensures |ms| == |says|
  {
    seq(|says|, i requires 0 <= i < |says| => ChatFrom(cfg, says[i]))
  }

  function ChatPackets(ms: seq<ChatMessage>): (ps: seq<Packet>)
    ensures |ps| == |ms|
  {
    seq(|ms|, i requires 0 <= i < |ms| => ChatPacket(ms[i]))
  }

  lemma {:induction false} BroadcastsOnWire(cfg: AppConfig, trace: seq<Event>, c: ConnId, says: seq<Saying>)
    requires var l := LocalAfter(cfg, trace, c); Authenticated(l) && l.link.Some? && Usable(l.link.value)
    ensures var l := LocalAfter(cfg, trace, c);
      LocalAfter(cfg, trace + Broadcasts(says), c) == l.(sent := l.sent + ChatPackets(Chats(cfg, says)))
    decreases |says|
  {
    hide LocalAfter, ChatPacket, Chat, ToJson;
    var l := LocalAfter(cfg, trace, c);
    if says == [] {
      assert trace + Broadcasts(says) == trace && l.sent + ChatPackets(Chats(cfg, says)) == l.sent;
    } else {
      var k := |says| - 1;
      var before, s := says[..k], says[k];
      BroadcastsOnWire(cfg, trace, c, before);
      SessionHistory.BroadcastReachesAuthenticated(cfg, trace + Broadcasts(before), s.id, s.time, s.text, c);
      ChatIs(cfg, s.id, s.time, s.text);
      assert trace + Broadcasts(says) == trace + Broadcasts(before) + [Event.Broadcast(s.id, s.time, s.text)];
      assert ChatPackets(Chats(cfg, says)) == ChatPackets(Chats(cfg, before)) + [ChatPacket(ChatFrom(cfg, s))];
      assert l.sent + ChatPackets(Chats(cfg, says)) ==
        l.sent + ChatPackets(Chats(cfg, before)) + [ChatPacket(ChatFrom(cfg, s))];
    }
  }

  // ---- Messages that survive -------------------------------------------------

  ghost predicate Octets(m: ChatMessage) {
    ByteText(m.msgId) && ByteText(m.senderId) && ByteText(m.senderName) && ByteText(m.text)
  }

  ghost predicate Faithful(m: ChatMessage) {
    && m.msgId != "" && m.senderId != ""
    && !EndsInBackslash(m.msgId) && !EndsInBackslash(m.senderId)
    && !EndsInBackslash(m.senderName) && !EndsInBackslash(m.text)
  }

  lemma BytesJoin(a: string, b: string)
    ensures ByteText(a + b) <==> ByteText(a) && ByteText(b)
  {
    assert forall i :: 0 <= i < |a| ==> (a + b)[i] == a[i];
    assert forall i :: 0 <= i < |b| ==> (a + b)[|a| + i] == b[i];
  }

  lemma {:induction false} EscapeKeepsBytes(s: string)
    requires ByteText(s)
    ensures ByteText(Escape(s))
  {
    if s != "" {
      EscapeKeepsBytes(s[1..]);
      BytesJoin(EscapeChar(s[0]), Escape(s[1..]));
    }
  }

  lemma DecimalIsBytes(n: int)
    ensures ByteText(ToDecimal(n))
  {
    hide ToDecimal;
    var s := ToDecimal(n);
    assert forall i :: 0 <= i < |s| ==> IsDigit(s[i]) || s[i] == '-';
  }

  lemma KeysAreBytes()
    ensures ByteText("msgId") && ByteText("senderId") && ByteText("senderName") && ByteText("timestampUtc")
    ensures ByteText("text") && ByteText("\"") && ByteText("\":") && ByteText(",") && ByteText("{") && ByteText("}")
  {}

  lemma FieldIsBytes(f: Field)
    requires ByteText(f.key) && ByteText(f.body)
    ensures ByteText(Render(f))
  {
    hide ByteText;
    KeysAreBytes();
    BytesJoin("\"", f.key);
    BytesJoin("\"" + f.key, "\":");
    BytesJoin("\"", f.body);
    BytesJoin("\"" + f.body, "\"");
    BytesJoin(Seeker(f.key), "\"" + f.body + "\"");
    BytesJoin(Seeker(f.key), f.body);
  }

  lemma {:induction false} JoinedIsBytes(fs: seq<Field>)
    requires |fs| > 0 && forall i :: 0 <= i < |fs| ==> ByteText(fs[i].key) && ByteText(fs[i].body)
    ensures ByteText(Joined(fs))
  {
    hide ByteText, Render;
    FieldIsBytes(fs[0]);
    if |fs| > 1 {
      JoinedIsBytes(fs[1..]);
      KeysAreBytes();
      BytesJoin(Render(fs[0]), ",");
      BytesJoin(Render(fs[0]) + ",", Joined(fs[1..]));
    }
  }

  lemma JsonIsBytes(m: ChatMessage)
    requires Octets(m)
    ensures ByteText(ToJson(m))
  {
    hide Escape, ToDecimal, ByteText, Joined, ToJson;
    EscapeKeepsBytes(m.msgId);
    EscapeKeepsBytes(m.senderId);
    EscapeKeepsBytes(m.senderName);
    EscapeKeepsBytes(m.text);
    DecimalIsBytes(m.timestampUtc);
    KeysAreBytes();
    ToJsonIsObject(m);
    JoinedIsBytes(Fields(m));
    BytesJoin("{", Joined(Fields(m)));
    BytesJoin("{" + Joined(Fields(m)), "}");
  }

  lemma {:induction false} ChatsComeBack(ms: seq<ChatMessage>)
    requires forall i :: 0 <= i < |ms| ==> Faithful(ms[i])
    ensures TwoParty.ChatsIn(ChatPackets(ms)) == ms
  {
    hide Faithful, ChatPacket, TwoParty.ChatOf;
    if ms != [] {
      var k := |ms| - 1;
      ChatsComeBack(ms[..k]);
      assert ChatPackets(ms)[..k] == ChatPackets(ms[..k]);
      ChatComesBack(ms[k]);
    }
  }

  lemma ChatComesBack(m: ChatMessage)
    requires Faithful(m)
    ensures TwoParty.ChatOf(ChatPacket(m)) == [m]
  {
    hide FromJson, ToJson, EndsInBackslash;
    MessageRoundTrip(m);
  }

  // ---- What a session says on a wire -----------------------------------------

  /** The message that an event of the user puts on the wire of a connection. */
  function SaidBy(l: Local, e: LocalEvent): seq<ChatMessage> {
    if !Authenticated(l) || l.link.None? || !Usable(l.link.value) then []
    else match e
      case Say(m) => [m]
      case SayTo(peerId, m) => if l.peer.value.deviceId == peerId then [m] else []
      case _ => []
  }

  /** The messages that the broadcasts and sendTo calls among further events put there, in order. */
  function SaidDuring(cfg: AppConfig, trace: seq<Event>, more: seq<Event>, c: ConnId): seq<ChatMessage> {
    if more == [] then []
    else
      var before := more[..|more| - 1];
      SaidDuring(cfg, trace, before, c) +
      SaidBy(LocalAfter(cfg, trace + before, c), Project(cfg, RunningAfter(trace + before), more[|more| - 1], c))
  }

  lemma {:induction false} ChatsAppend(a: seq<Packet>, b: seq<Packet>)
    ensures TwoParty.ChatsIn(a + b) == TwoParty.ChatsIn(a) + TwoParty.ChatsIn(b)
    decreases |b|
  {
    hide TwoParty.ChatOf;
    if b == [] {
      assert a + b == a;
    } else {
      assert (a + b)[..|a + b| - 1] == a + b[..|b| - 1];
      ChatsAppend(a, b[..|b| - 1]);
    }
  }

  lemma {:induction false} NoChatsIn(log: seq<Packet>)
    requires forall i :: 0 <= i < |log| ==> log[i].mtype != CHAT_MESSAGE
    ensures TwoParty.ChatsIn(log) == []
    decreases |log|
  {
    if log != [] { NoChatsIn(log[..|log| - 1]); }
  }

  /** What an event adds to a wire holds exactly the chat it says. */
  lemma StepTail(cfg: AppConfig, l: Local, e: LocalEvent)
    ensures var after := LocalStep(cfg, l, e).sent;
      && l.sent <= after
      && TwoParty.ChatsIn(after[|l.sent|..]) == TwoParty.ChatsIn(ChatPackets(SaidBy(l, e)))
  {
    hide LocalStep, ChatPacket, Authenticated;
    TwoParty.StepGrows(cfg, l, e);
    if e.Say? || e.SayTo? {
      SaysTail(cfg, l, e);
    } else {
      var tail := LocalStep(cfg, l, e).sent[|l.sent|..];
      NoChatsIn(tail);
      assert ChatPackets(SaidBy(l, e)) == [];
    }
  }

  lemma SaysTail(cfg: AppConfig, l: Local, e: LocalEvent)
    requires e.Say? || e.SayTo?
    ensures LocalStep(cfg, l, e).sent[|l.sent|..] == ChatPackets(SaidBy(l, e))
  {
    hide ChatPacket;
    assert l.sent + [] == l.sent;
  }

  /** The chats that further events put on a wire are the messages they say. */
  lemma {:induction false} SaidTail(cfg: AppConfig, trace: seq<Event>, more: seq<Event>, c: ConnId)
    ensures var before, after := LocalAfter(cfg, trace, c).sent, LocalAfter(cfg, trace + more, c).sent;
      && before <= after
      && TwoParty.ChatsIn(after[|before|..]) == TwoParty.ChatsIn(ChatPackets(SaidDuring(cfg, trace, more, c)))
    decreases |more|
  {
    hide LocalAfter, LocalStep, Project, SaidBy, RunningAfter, TwoParty.ChatsIn, ChatPackets;
    var before := LocalAfter(cfg, trace, c).sent;
    if more == [] {
      assert trace + more == trace && before[|before|..] == [];
      NoPackets();
    } else {
      var most, e := more[..|more| - 1], more[|more| - 1];
      var l := LocalAfter(cfg, trace + most, c);
      var le := Project(cfg, RunningAfter(trace + most), e, c);
      assert trace + more == trace + most + [e];
      SaidTail(cfg, trace, most, c);
      AfterOneMore(cfg, trace + most, e, c);
      StepTail(cfg, l, le);
      var after := LocalStep(cfg, l, le).sent;
      assert after[|before|..] == l.sent[|before|..] + after[|l.sent|..];
      ChatsAppend(l.sent[|before|..], after[|l.sent|..]);
      PacketsAppend(SaidDuring(cfg, trace, most, c), SaidBy(l, le));
    }
  }

  lemma NoPackets()
    ensures TwoParty.ChatsIn([]) == TwoParty.ChatsIn(ChatPackets([]))
  {
    assert ChatPackets([]) == [];
  }

  lemma PacketsAppend(a: seq<ChatMessage>, b: seq<ChatMessage>)
    ensures TwoParty.ChatsIn(ChatPackets(a + b)) == TwoParty.ChatsIn(ChatPackets(a)) + TwoParty.ChatsIn(ChatPackets(b))
  {
    hide TwoParty.ChatsIn, ChatPacket;
    assert ChatPackets(a + b) == ChatPackets(a) + ChatPackets(b);
    ChatsAppend(ChatPackets(a), ChatPackets(b));
  }

  /** Broadcasts on an authenticated, usable connection are all said. */
  lemma {:induction false} BroadcastsAreSaid(cfg: AppConfig, trace: seq<Event>, c: ConnId, says: seq<Saying>)
    requires var l := LocalAfter(cfg, trace, c); Authenticated(l) && l.link.Some? && Usable(l.link.value)
    ensures SaidDuring(cfg, trace, Broadcasts(says), c) == Chats(cfg, says)
    decreases |says|
  {
    hide LocalAfter, RunningAfter, Chat;
    if says != [] {
      var k := |says| - 1;
      BroadcastsAreSaid(cfg, trace, c, says[..k]);
      BroadcastsOnWire(cfg, trace, c, says[..k]);
      assert Broadcasts(says)[..k] == Broadcasts(says[..k]);
      assert Chats(cfg, says) == Chats(cfg, says[..k]) + [ChatFrom(cfg, says[k])];
    }
  }

  // ---- The whole way ---------------------------------------------------------

  lemma {:induction false} FramesAppend(trace: seq<Event>, more: seq<Event>, c: ConnId)
    ensures FramesFrom(trace + more, c) == FramesFrom(trace, c) + FramesFrom(more, c)
    decreases |more|
  {
    if more == [] {
      assert trace + more == trace;
    } else {
      assert (trace + more)[..|trace + more| - 1] == trace + more[..|more| - 1];
      FramesAppend(trace, more[..|more| - 1], c);
    }
  }

  /** From one session's wire to the other's callback. The sender's history is arbitrary, and so are the chunks in
      which any part of its wire arrives, and the receiver's history among whose events the frames are handled.
      From when the receiver holds the peer authenticated, its callback gets from this connection exactly the
      well-formed chats among the frames handled since, once each, in the order of the sender's wire. */
  lemma WireReachesCallback(a: AppConfig, ta: seq<Event>, ca: ConnId, chunks: seq<seq<byte>>, max: nat,
                            b: AppConfig, trace: seq<Event>, more: seq<Event>, cb: ConnId)
    requires AllFit(LocalAfter(a, ta, ca).sent, max)
    requires Flatten(chunks) <= Stream(FramesOf(LocalAfter(a, ta, ca).sent))
    requires FramesFrom(trace + more, cb) <= PacketsOf(Delivered(chunks, max))
    requires StaysAuthenticated(b, trace, more, cb)
    ensures var log := LocalAfter(a, ta, ca).sent;
      var n, m := |FramesFrom(trace, cb)|, |FramesFrom(trace + more, cb)|;
      && n <= m <= |log|
      && From(CallbackLog(b, trace + more), cb) == From(CallbackLog(b, trace), cb) + TwoParty.ChatsIn(log[n..m])
  {
    hide *;
    var log := LocalAfter(a, ta, ca).sent;
    ChannelCarriesPackets(log, chunks, max);
    FramesAppend(trace, more, cb);
    AuthenticatedIsHeard(b, trace, more, cb);
    var n, m := |FramesFrom(trace, cb)|, |FramesFrom(trace + more, cb)|;
    assert FramesFrom(trace + more, cb) == log[..m];
    assert FramesFrom(more, cb) == log[..m][n..] == log[n..m];
  }

  /** The sender broadcasts and sends during any further events. All bytes of its wire arrive, in any chunks, the
      receiver handles all frames, and holds the sender authenticated from some moment before the first frame of
      these events is handled. Then everything said on this connection reaches the callback, once each, in order
      and unchanged, after the well-formed chats that were still on the way. */
  lemma BroadcastsArrive(a: AppConfig, sent: seq<Event>, during: seq<Event>, ca: ConnId,
                         chunks: seq<seq<byte>>, max: nat,
                         b: AppConfig, trace: seq<Event>, more: seq<Event>, cb: ConnId)
    requires AllFit(LocalAfter(a, sent + during, ca).sent, max)
    requires Flatten(chunks) == Stream(FramesOf(LocalAfter(a, sent + during, ca).sent))
    requires FramesFrom(trace + more, cb) == PacketsOf(Delivered(chunks, max))
    requires StaysAuthenticated(b, trace, more, cb)
    requires |FramesFrom(trace, cb)| <= |LocalAfter(a, sent, ca).sent|
    requires forall m :: m in SaidDuring(a, sent, during, ca) ==> Faithful(m)
    ensures var waiting := LocalAfter(a, sent, ca).sent[|FramesFrom(trace, cb)|..];
      From(CallbackLog(b, trace + more), cb) ==
        From(CallbackLog(b, trace), cb) + TwoParty.ChatsIn(waiting) + SaidDuring(a, sent, during, ca)
  {
    hide *;
    var before, log := LocalAfter(a, sent, ca).sent, LocalAfter(a, sent + during, ca).sent;
    var n := |FramesFrom(trace, cb)|;
    ChannelCarriesPackets(log, chunks, max);
    WireReachesCallback(a, sent + during, ca, chunks, max, b, trace, more, cb);
    SaidTail(a, sent, during, ca);
    assert log[n..|log|] == before[n..] + log[|before|..];
    ChatsAppend(before[n..], log[|before|..]);
    ChatsComeBack(SaidDuring(a, sent, during, ca));
  }

  /** When a chat fits: octets in its fields, and a text within the limit. */
  ghost predicate Fitting(m: ChatMessage, max: nat) {
    Octets(m) && |ToJson(m)| <= max && |ToJson(m)| < 0x1_0000_0000
  }

  lemma ChatsFit(log: seq<Packet>, ms: seq<ChatMessage>, max: nat)
    requires AllFit(log, max) && forall m :: m in ms ==> Fitting(m, max)
    ensures AllFit(log + ChatPackets(ms), max)
  {
    hide Octets, ToJson, ByteText;
    var all := log + ChatPackets(ms);
    forall i | 0 <= i < |all| ensures Fits(all[i], max) {
      if i >= |log| {
        var m := ms[i - |log|];
        assert m in ms;
        JsonIsBytes(m);
      }
    }
  }

  /** The message that says `s` for this sender, field by field. */
  predicate Carries(m: ChatMessage, sender: AppConfig, s: Saying) {
    && m.msgId == s.id && m.senderId == sender.deviceId && m.senderName == sender.displayName
    && m.timestampUtc == s.time && m.text == s.text
  }

  /** What a user can get across: octets in every field, a JSON text within the limit, two ids, and no field that
      ends in a backslash. */
  ghost predicate Sayable(sender: AppConfig, s: Saying, max: nat) {
    var m := ChatMessage(s.id, sender.deviceId, sender.displayName, s.time, s.text);
    Faithful(m) && Fitting(m, max)
  }

  lemma ChatsCarry(a: AppConfig, says: seq<Saying>, max: nat)
    ensures forall i: nat :: i < |says| ==> Carries(Chats(a, says)[i], a, says[i])
    ensures (forall i: nat :: i < |says| ==> Sayable(a, says[i], max)) ==>
      forall m :: m in Chats(a, says) ==> Faithful(m) && Fitting(m, max)
  {
    hide Faithful, Fitting;
  }

  /** The user's view. On an authenticated, usable connection whose wire fits the limit so far, some texts are
      broadcast. However the bytes are cut, the callback on the other side gets one message for each, in order, with
      that text, its id and its time, from this sender. */
  lemma TextsArrive(a: AppConfig, sent: seq<Event>, says: seq<Saying>, ca: ConnId,
                    chunks: seq<seq<byte>>, max: nat,
                    b: AppConfig, trace: seq<Event>, more: seq<Event>, cb: ConnId)
    requires var l := LocalAfter(a, sent, ca); Authenticated(l) && l.link.Some? && Usable(l.link.value)
    requires AllFit(LocalAfter(a, sent, ca).sent, max)
    requires forall i: nat :: i < |says| ==> Sayable(a, says[i], max)
    requires Flatten(chunks) == Stream(FramesOf(LocalAfter(a, sent + Broadcasts(says), ca).sent))
    requires FramesFrom(trace, cb) == LocalAfter(a, sent, ca).sent
    requires FramesFrom(trace + more, cb) == PacketsOf(Delivered(chunks, max))
    requires StaysAuthenticated(b, trace, more, cb)
    ensures var before, after := From(CallbackLog(b, trace), cb), From(CallbackLog(b, trace + more), cb);
      && before <= after && |after| == |before| + |says|
      && forall i: nat :: i < |says| ==> Carries(after[|before| + i], a, says[i])
  {
    var log := LocalAfter(a, sent, ca).sent;
    hide *;
    ChatsCarry(a, says, max);
    BroadcastsOnWire(a, sent, ca, says);
    BroadcastsAreSaid(a, sent, ca, says);
    ChatsFit(log, Chats(a, says), max);
    BroadcastsArrive(a, sent, Broadcasts(says), ca, chunks, max, b, trace, more, cb);
    SentBroadcasts(a, sent, says, ca);
    assert log[|log|..] == [];
    NoChatsIn([]);
    var heard := From(CallbackLog(b, trace), cb);
    assert heard + [] == heard;
  }

  lemma SentBroadcasts(a: AppConfig, sent: seq<Event>, says: seq<Saying>, ca: ConnId)
    requires var l := LocalAfter(a, sent, ca); Authenticated(l) && l.link.Some? && Usable(l.link.value)
    ensures LocalAfter(a, sent + Broadcasts(says), ca).sent ==
      LocalAfter(a, sent, ca).sent + ChatPackets(Chats(a, says))
  {
    hide LocalAfter, ChatPackets, Chats, Authenticated, Usable;
    BroadcastsOnWire(a, sent, ca, says);
  }
}

/** Two session objects, each with all its connections and calls, as one run of the two-party model: for the pair of
    connection ids that join them. */
module TwoSessions {
  import opened Text
  import opened Protocol
  import opened Connection
  import opened Config
  import opened ChatSession
  import opened EndToEnd
  import opened TwoParty
  import Message
  import SessionHistory

  /** A history of both sessions in the order of time. */
  datatype Joint = OfA(event: Event) | OfB(event: Event)

  function TraceA(h: seq<Joint>): seq<Event> {
    if h == [] then []
    else TraceA(h[..|h| - 1]) + if h[|h| - 1].OfA? then [h[|h| - 1].event] else []
  }

  function TraceB(h: seq<Joint>): seq<Event> {
    if h == [] then []
    else TraceB(h[..|h| - 1]) + if h[|h| - 1].OfB? then [h[|h| - 1].event] else []
  }

  function EventAt(cfg: AppConfig, trace: seq<Event>, k: nat, c: ConnId): LocalEvent
    requires k < |trace|
  {
    Project(cfg, RunningAfter(trace[..k]), trace[k], c)
  }

  predicate AddedIn(cfg: AppConfig, trace: seq<Event>, c: ConnId) {
    trace != [] && (AddedIn(cfg, trace[..|trace| - 1], c) || EventAt(cfg, trace, |trace| - 1, c).Adopt?)
  }

  /** The id is added at most once, and its frames come after that, as from a connection with a fresh id. */
  ghost predicate Proper(cfg: AppConfig, trace: seq<Event>, c: ConnId) {
    forall k :: 0 <= k < |trace| ==> ProperAt(cfg, trace, k, c)
  }

  ghost predicate ProperAt(cfg: AppConfig, trace: seq<Event>, k: nat, c: ConnId)
    requires k < |trace|
  {
    && (EventAt(cfg, trace, k, c).Adopt? ==> !AddedIn(cfg, trace[..k], c))
    && (EventAt(cfg, trace, k, c).Receive? ==> AddedIn(cfg, trace[..k], c))
  }

  /** At every moment the frames that each side has handled are the first ones on the other's wire. */
  ghost predicate Supplied(ca: AppConfig, cb: AppConfig, h: seq<Joint>, c: ConnId, d: ConnId) {
    forall k :: 0 <= k <= |h| ==> SuppliedAt(ca, cb, h[..k], c, d)
  }

  ghost predicate SuppliedAt(ca: AppConfig, cb: AppConfig, h: seq<Joint>, c: ConnId, d: ConnId) {
    && FramesFrom(TraceA(h), c) <= LocalAfter(cb, TraceB(h), d).sent
    && FramesFrom(TraceB(h), d) <= LocalAfter(ca, TraceA(h), c).sent
  }

  /** A session's trace seen as one end of the two-party model. */
  function EndOf(cfg: AppConfig, trace: seq<Event>, c: ConnId): End {
    End(cfg, LocalAfter(cfg, trace, c), AddedIn(cfg, trace, c), |FramesFrom(trace, c)|,
        From(CallbackLog(cfg, trace), c))
  }

  function ActOf(e: LocalEvent): Act {
    match e
    case Adopt(broken) => Connect(broken)
    case Receive(_) => Deliver
    case _ => Own(e)
  }

  /** One event of a session is one act of its end. */
  lemma EventIsAct(cfg: AppConfig, trace: seq<Event>, e: Event, c: ConnId, y: End)
    requires ProperAt(cfg, trace + [e], |trace|, c) && FramesFrom(trace + [e], c) <= y.local.sent
    ensures EndStep(EndOf(cfg, trace, c), y, ActOf(Project(cfg, RunningAfter(trace), e, c))) ==
      EndOf(cfg, trace + [e], c)
  {
    hide LocalAfter, LocalStep, Heard, FramesFrom, CallbackLog, From, RunningAfter, Project, Possible;
    var le, all := Project(cfg, RunningAfter(trace), e, c), trace + [e];
    assert all[..|trace|] == trace && EventAt(cfg, all, |trace|, c) == le;
    AfterOneMore(cfg, trace, e, c);
    OneMoreLogged(cfg, trace, e, c);
    SessionHistory.ReceiveIsFrame(cfg, RunningAfter(trace), e, c);
    FramesOneMore(trace, e, c);
    ProjectIsPossible(cfg, RunningAfter(trace), e, c);
    assert From(CallbackLog(cfg, trace), c) + [] == From(CallbackLog(cfg, trace), c);
  }

  lemma FramesOneMore(trace: seq<Event>, e: Event, c: ConnId)
    ensures FramesFrom(trace + [e], c) == FramesFrom(trace, c) + if e.Frame? && e.c == c then [e.packet] else []
  {
    assert (trace + [e])[..|trace|] == trace;
  }

  /** What a session does to a connection the two-party model allows: its chats carry its own identity. */
  lemma ProjectIsPossible(cfg: AppConfig, running: bool, e: Event, c: ConnId)
    ensures var le := Project(cfg, running, e, c); le.Adopt? || le.Receive? || Possible(cfg, le)
  {}

  lemma OneMore(h: seq<Joint>)
    requires h != []
    ensures var before, j := h[..|h| - 1], h[|h| - 1];
      && TraceA(h) == (if j.OfA? then TraceA(before) + [j.event] else TraceA(before))
      && TraceB(h) == (if j.OfB? then TraceB(before) + [j.event] else TraceB(before))
  {
    var before := h[..|h| - 1];
    assert TraceA(before) + [] == TraceA(before) && TraceB(before) + [] == TraceB(before);
  }

  lemma ProperBefore(cfg: AppConfig, trace: seq<Event>, e: Event, c: ConnId)
    requires Proper(cfg, trace + [e], c)
    ensures Proper(cfg, trace, c) && ProperAt(cfg, trace + [e], |trace|, c)
  {
    hide AddedIn, EventAt;
    forall k | 0 <= k < |trace| ensures ProperAt(cfg, trace, k, c) {
      assert ProperAt(cfg, trace + [e], k, c);
      SameEvent(cfg, trace, e, k, c);
    }
  }

  lemma SameEvent(cfg: AppConfig, trace: seq<Event>, e: Event, k: nat, c: ConnId)
    requires k < |trace|
    ensures (trace + [e])[..k] == trace[..k] && EventAt(cfg, trace + [e], k, c) == EventAt(cfg, trace, k, c)
  {
    hide Project, RunningAfter;
    assert (trace + [e])[..k] == trace[..k];
  }

  lemma SuppliedBefore(ca: AppConfig, cb: AppConfig, h: seq<Joint>, c: ConnId, d: ConnId)
    requires h != [] && Supplied(ca, cb, h, c, d)
    ensures Supplied(ca, cb, h[..|h| - 1], c, d) && SuppliedAt(ca, cb, h, c, d)
  {
    hide SuppliedAt;
    var before := h[..|h| - 1];
    assert h[..|h|] == h;
    forall k | 0 <= k <= |before| ensures SuppliedAt(ca, cb, before[..k], c, d) {
      assert before[..k] == h[..k];
    }
  }

  /** Two sessions that a pair of connections joins are a run of the two-party model: what each knows of its
      connection, how many frames it has handled and what its callback got from it are those of the run. */
  lemma {:induction false} JointIsDuo(ca: AppConfig, cb: AppConfig, h: seq<Joint>, c: ConnId, d: ConnId)
    returns (moves: seq<Move>)
    requires Proper(ca, TraceA(h), c) && Proper(cb, TraceB(h), d) && Supplied(ca, cb, h, c, d)
    ensures Run(ca, cb, moves) == Duo(EndOf(ca, TraceA(h), c), EndOf(cb, TraceB(h), d))
    decreases |h|
  {
    hide Proper, ProperAt, Supplied, EndOf, EndStep, Project, RunningAfter, ActOf;
    if h == [] {
      moves := [];
      NothingYet(ca, c);
      NothingYet(cb, d);
    } else {
      var before, j := h[..|h| - 1], h[|h| - 1];
      var ta, tb := TraceA(before), TraceB(before);
      OneMore(h);
      SuppliedBefore(ca, cb, h, c, d);
      var m: Move;
      if j.OfA? {
        ProperBefore(ca, ta, j.event, c);
        moves := JointIsDuo(ca, cb, before, c, d);
        m := MoveA(ActOf(Project(ca, RunningAfter(ta), j.event, c)));
        LocalOf(cb, tb, d);
        EventIsAct(ca, ta, j.event, c, EndOf(cb, tb, d));
      } else {
        ProperBefore(cb, tb, j.event, d);
        moves := JointIsDuo(ca, cb, before, c, d);
        m := MoveB(ActOf(Project(cb, RunningAfter(tb), j.event, d)));
        LocalOf(ca, ta, c);
        EventIsAct(cb, tb, j.event, d, EndOf(ca, ta, c));
      }
      assert (moves + [m])[..|moves|] == moves;
      moves := moves + [m];
    }
  }

  lemma LocalOf(cfg: AppConfig, trace: seq<Event>, c: ConnId)
    ensures EndOf(cfg, trace, c).local == LocalAfter(cfg, trace, c)
  {
    hide LocalAfter;
  }

  lemma NothingYet(cfg: AppConfig, c: ConnId)
    ensures EndOf(cfg, [], c) == Fresh(cfg)
  {}

  // ---- Down to the bytes -----------------------------------------------------

  /** The frames handled so far come out of a reader that was fed, in some chunks, a part of the other's wire. */
  ghost predicate Fed(trace: seq<Event>, c: ConnId, sent: seq<Packet>, max: nat) {
    AllFit(sent, max) && exists chunks :: FedBy(chunks, trace, c, sent, max)
  }

  ghost predicate FedBy(chunks: seq<seq<byte>>, trace: seq<Event>, c: ConnId, sent: seq<Packet>, max: nat) {
    Flatten(chunks) <= Stream(FramesOf(sent)) && FramesFrom(trace, c) <= PacketsOf(Delivered(chunks, max))
  }

  ghost predicate BytesSupplied(ca: AppConfig, cb: AppConfig, h: seq<Joint>, c: ConnId, d: ConnId, max: nat) {
    forall k :: 0 <= k <= |h| ==> BytesSuppliedAt(ca, cb, h[..k], c, d, max)
  }

  ghost predicate BytesSuppliedAt(ca: AppConfig, cb: AppConfig, h: seq<Joint>, c: ConnId, d: ConnId, max: nat) {
    && Fed(TraceA(h), c, LocalAfter(cb, TraceB(h), d).sent, max)
    && Fed(TraceB(h), d, LocalAfter(ca, TraceA(h), c).sent, max)
  }

  lemma FedIsPrefix(trace: seq<Event>, c: ConnId, sent: seq<Packet>, max: nat)
    requires Fed(trace, c, sent, max)
    ensures FramesFrom(trace, c) <= sent
  {
    hide AllFit, Stream, FramesOf, PacketsOf, Delivered, FramesFrom, Flatten, FedBy;
    var chunks :| FedBy(chunks, trace, c, sent, max);
    FedByMeans(chunks, trace, c, sent, max);
    ChannelCarriesPackets(sent, chunks, max);
  }

  lemma FedByMeans(chunks: seq<seq<byte>>, trace: seq<Event>, c: ConnId, sent: seq<Packet>, max: nat)
    requires FedBy(chunks, trace, c, sent, max)
    ensures Flatten(chunks) <= Stream(FramesOf(sent)) && FramesFrom(trace, c) <= PacketsOf(Delivered(chunks, max))
  {}

  lemma BytesSupply(ca: AppConfig, cb: AppConfig, h: seq<Joint>, c: ConnId, d: ConnId, max: nat)
    requires BytesSupplied(ca, cb, h, c, d, max)
    ensures Supplied(ca, cb, h, c, d)
  {
    hide Fed, FramesFrom, LocalAfter, TraceA, TraceB;
    forall k | 0 <= k <= |h| ensures SuppliedAt(ca, cb, h[..k], c, d) {
      var g := h[..k];
      assert BytesSuppliedAt(ca, cb, g, c, d, max);
      FedIsPrefix(TraceA(g), c, LocalAfter(cb, TraceB(g), d).sent, max);
      FedIsPrefix(TraceB(g), d, LocalAfter(ca, TraceA(g), c).sent, max);
    }
  }

  /** Two session objects joined by a byte stream each way, with everything else they do: under configurations that
      keep chats, while a session still has the connection, its callback has got from it every well-formed chat
      among the frames handled, once each and in the order of the other's wire. */
  lemma SessionsLoseNothing(ca: AppConfig, cb: AppConfig, h: seq<Joint>, c: ConnId, d: ConnId, max: nat)
    requires ChatsKept(ca, cb)
    requires Proper(ca, TraceA(h), c) && Proper(cb, TraceB(h), d) && BytesSupplied(ca, cb, h, c, d, max)
    ensures var la, lb := LocalAfter(ca, TraceA(h), c), LocalAfter(cb, TraceB(h), d);
      var n, m := |FramesFrom(TraceA(h), c)|, |FramesFrom(TraceB(h), d)|;
      && n <= |lb.sent| && m <= |la.sent|
      && (la.link.Some? ==> From(CallbackLog(ca, TraceA(h)), c) == ChatsIn(lb.sent[..n]))
      && (lb.link.Some? ==> From(CallbackLog(cb, TraceB(h)), d) == ChatsIn(la.sent[..m]))
  {
    hide Proper, BytesSupplied, Supplied, Run, LocalAfter, FramesFrom, From, CallbackLog, ChatsIn, ChatsKept, AddedIn,
      TraceA, TraceB;
    BytesSupply(ca, cb, h, c, d, max);
    var moves := JointIsDuo(ca, cb, h, c, d);
    NoChatDropped(ca, cb, moves);
  }
}

/** One peer connection: sending, disconnecting, and the receive loop with its rate limit
    (src/network/connection.cpp). */
module Connection {
  import opened Text
  import opened Protocol

  datatype ConnectionState = CONNECTED | AUTHENTICATING | AUTHENTICATED | DISCONNECTING | DISCONNECTED

  /** A frame as the session sees it: its type and its payload as text. */
  datatype Packet = Packet(mtype: MessageType, payload: string)

  function PacketOf(f: Frame): Packet { Packet(f.header.mtype, FromBytes(f.payload)) }

  function FrameOf(p: Packet): Frame { CreateFrame(p.mtype, ToBytes(p.payload)) }

  /** The part of a connection that decides what it transmits: running_ and whether its socket
      still takes data (it never recovers). */
  datatype Link = Link(running: bool, broken: bool)

  predicate Usable(l: Link) { l.running && !l.broken }

  /** What `send` puts on the wire. */
  function Transmit(l: Link, p: Packet): seq<Packet> { if Usable(l) then [p] else [] }

  function HangUp(l: Link): Link { l.(running := false) }

  /** recv returned data, or reported the end of the stream or an error. `now` is the clock
      read after the frames were handled; `hangup` is the reason if disconnect was called
      meanwhile, by a frame handler or by another thread. */
  datatype RecvEvent = Data(bytes: seq<byte>, now: nat, hangup: Option<string>) | Closed(hangup: Option<string>)

  datatype Exit = Running | PeerClosed | HungUp | RateLimited | ProtocolError(error: Error)

  const SECOND: nat := 1_000_000_000
  const MAX_FRAMES: nat := 100

  // ---- What the receive loop does --------------------------------------------

  /** The frames given to the frame callback, what the reader holds, how many events were used,
      and the loop's own variables. */
  datatype Progress = Progress(
    delivered: seq<Frame>, held: ReaderState, used: nat, lastCheck: nat, frameCount: nat, exit: Exit)

  /** One turn of the loop. */
  function Took(p: Progress, e: RecvEvent, max: nat): Progress {
    match e
    case Closed(hangup) => p.(used := p.used + 1, exit := if hangup.Some? then HungUp else PeerClosed)
    case Data(bytes, now, hangup) =>
      var r := FeedSpec(p.held, bytes, max);
      var q := p.(held := r.1, used := p.used + 1);
      if r.0.Violation? then q.(exit := ProtocolError(r.0.error))
      else
        var n := p.frameCount + |r.0.frames|;
        var d := q.(delivered := p.delivered + r.0.frames, frameCount := n,
          exit := if hangup.Some? then HungUp else Running);
        if now - p.lastCheck < SECOND then d
        else if n > MAX_FRAMES then d.(exit := RateLimited)
        else d.(frameCount := 0, lastCheck := now)
  }

  function Received(events: seq<RecvEvent>, start: nat, max: nat): Progress {
    if events == [] then Progress([], ReadingHeader([]), 0, start, 0, Running)
    else
      var p := Received(events[..|events| - 1], start, max);
      if p.exit.Running? then Took(p, events[|events| - 1], max) else p
  }

  /** The reason in the DISCONNECT frame with which the loop ended, if it sent one: that of the
      first call of disconnect. */
  function Farewell(exit: Exit, last: RecvEvent): Option<string> {
    if last.hangup.Some? then last.hangup
    else match exit
      case RateLimited => Some("Rate limit exceeded")
      case ProtocolError(error) => Some("Protocol error: " + What(error))
      case _ => None
  }

  function Leaving(l: Link, exit: Exit, last: RecvEvent): seq<Packet> {
    if exit.Running? then []
    else match Farewell(exit, last)
      case None => []
      case Some(reason) => Transmit(l, Packet(DISCONNECT, reason))
  }

  /** The frames the whole loop puts on the wire. */
  function Goodbye(l: Link, events: seq<RecvEvent>, p: Progress): seq<Packet>
    requires p.used <= |events|
  {
    if p.used == 0 then [] else Leaving(l, p.exit, events[p.used - 1])
  }

  class Connection {
    var running: bool
    var state: ConnectionState
    var broken: bool
    const reader: FrameReader
    ghost var sent: seq<Packet>      // frames put on the wire
    ghost var notified: nat          // calls of the disconnect callback

    ghost predicate Valid()
      reads this
    {
      running <==> state != DISCONNECTED
    }

    ghost function View(): Link
      reads this
    {
      Link(running, broken)
    }

    constructor (maxPayloadSize: nat)
      ensures !running && !broken && state == CONNECTED && sent == [] && notified == 0
      ensures fresh(reader) && reader.Holds() == ReadingHeader([]) && reader.maxPayloadSize == maxPayloadSize
    {
      running, broken, state := false, false, CONNECTED;
      sent, notified := [], 0;
      reader := new FrameReader(maxPayloadSize);
    }

    method Start()
      requires state == CONNECTED
      modifies this`running
      ensures Valid() && running
    {
      running := true;
    }

    method Send(p: Packet) returns (ok: bool)
      modifies this`sent
      ensures ok == Usable(View()) && sent == old(sent) + Transmit(View(), p)
      ensures sent == old(sent) + if running && !broken then [p] else []
    {
      if !running || broken { assert sent + [] == sent; return false; }
      sent := sent + [p];
      return true;
    }

    method Disconnect(reason: string)
      requires Valid()
      modifies this`sent, this`running, this`state
      ensures Valid() && View() == HangUp(old(View()))
      ensures sent == old(sent) + Transmit(old(View()), Packet(DISCONNECT, reason))
      ensures !running && state == DISCONNECTED
      ensures sent == old(sent) + if old(running) && !broken then [Packet(DISCONNECT, reason)] else []
    {
      if state == DISCONNECTED { assert sent + [] == sent; return; }
      state := DISCONNECTING;
      var _ := Send(Packet(DISCONNECT, reason));
      running := false;
      state := DISCONNECTED;
    }

    /** The receive loop over the answers of recv. */
    method RecvLoop(events: seq<RecvEvent>, start: nat)
      returns (delivered: seq<Frame>, used: nat, lastCheck: nat, frameCount: nat, exit: Exit)
      requires Valid() && running && reader.Holds() == ReadingHeader([])
      modifies this`sent, this`running, this`state, this`notified, reader
      ensures Progress(delivered, reader.Holds(), used, lastCheck, frameCount, exit) ==
        Received(events, start, reader.maxPayloadSize)
      ensures Valid() && used <= |events| && (running <==> exit.Running?)
      ensures sent == old(sent) + Goodbye(old(View()), events, Received(events, start, reader.maxPayloadSize))
      // only the end of the stream is reported to the session
      ensures notified == old(notified) + if exit.PeerClosed? then 1 else 0
    {
      hide *;
      delivered, used, lastCheck, frameCount, exit := [], 0, start, 0, Running;
      ghost var max, l := reader.maxPayloadSize, View();
      NothingReceived(l, events, start, max);
      assert sent + [] == sent;
      while running && used < |events|
        invariant Valid() && used <= |events| && broken == old(broken)
        invariant running <==> exit.Running?
        invariant running ==> View() == l && sent == old(sent)
        invariant Progress(delivered, reader.Holds(), used, lastCheck, frameCount, exit) ==
          Received(events[..used], start, max)
        invariant sent == old(sent) + Goodbye(l, events, Received(events[..used], start, max))
        invariant notified == old(notified) + if exit.PeerClosed? then 1 else 0
        decreases |events| - used
      {
        ReceivedNext(l, events, used, start, max);
        delivered, lastCheck, frameCount, exit :=
          Turn(events[used], delivered, lastCheck, frameCount, Received(events[..used], start, max));
        used := used + 1;
      }
      LoopEnds(events, used, start, max);
    }

    /** The body of the loop. */
    method Turn(e: RecvEvent, before: seq<Frame>, check: nat, count: nat, ghost p: Progress)
      returns (delivered: seq<Frame>, lastCheck: nat, frameCount: nat, exit: Exit)
      requires Valid() && running && p == Progress(before, reader.Holds(), p.used, check, count, Running)
      modifies this`sent, this`running, this`state, this`notified, reader
      ensures Progress(delivered, reader.Holds(), p.used + 1, lastCheck, frameCount, exit) ==
        Took(p, e, reader.maxPayloadSize)
      ensures Valid() && (running <==> exit.Running?)
      ensures running ==> View() == old(View()) && sent == old(sent)
      ensures sent == old(sent) + Leaving(old(View()), exit, e)
      ensures notified == old(notified) + if exit.PeerClosed? then 1 else 0
    {
      hide FeedSpec, What;
      delivered, lastCheck, frameCount, exit := before, check, count, Running;
      assert sent + [] == sent;
      if e.Closed? {
        exit := End(e.hangup);
        return;
      }
      var r := reader.Feed(e.bytes);
      if r.Violation? {
        HangUpFor(e.hangup);
        Disconnect("Protocol error: " + What(r.error));
        exit := ProtocolError(r.error);
        return;
      }
      delivered, frameCount := HandOver(r.frames, delivered, frameCount);
      HangUpFor(e.hangup);
      if e.hangup.Some? { exit := HungUp; }
      if e.now - lastCheck >= SECOND {
        if frameCount > MAX_FRAMES {
          Disconnect("Rate limit exceeded");
          exit := RateLimited;
          return;
        }
        frameCount := 0;
        lastCheck := e.now;
      }
    }

    /** recv returned nothing: the session hears of it unless disconnect was called. */
    method End(hangup: Option<string>) returns (exit: Exit)
      requires Valid() && running
      modifies this`sent, this`running, this`state, this`notified
      ensures Valid() && !running && exit == if hangup.Some? then HungUp else PeerClosed
      ensures sent == old(sent) + Leaving(old(View()), exit, Closed(hangup))
      ensures notified == old(notified) + if exit.PeerClosed? then 1 else 0
    {
      assert sent + [] == sent;
      HangUpFor(hangup);
      if !running { return HungUp; }
      running, state := false, DISCONNECTED;
      notified := notified + 1;
      return PeerClosed;
    }

    /** Somebody else's call of disconnect. */
    method HangUpFor(hangup: Option<string>)
      requires Valid() && running
      modifies this`sent, this`running, this`state
      ensures Valid() && running == hangup.None? && broken == old(broken)
      ensures sent == old(sent) +
        if hangup.Some? then Transmit(old(View()), Packet(DISCONNECT, hangup.value)) else []
    {
      assert sent + [] == sent;
      if hangup.Some? { Disconnect(hangup.value); }
    }

    /** The frame callback for each frame, in order, with the frame counter. */
    method HandOver(frames: seq<Frame>, before: seq<Frame>, count: nat) returns (delivered: seq<Frame>, open: nat)
      ensures delivered == before + frames && open == count + |frames|
    {
      delivered, open := before, count;
      for k := 0 to |frames|
        invariant delivered == before + frames[..k] && open == count + k
      {
        open := open + 1;
        delivered := delivered + [frames[k]];
      }
    }
  }

  // ---- The loop, step by step ------------------------------------------------

  lemma NothingReceived(l: Link, events: seq<RecvEvent>, start: nat, max: nat)
    ensures Received(events[..0], start, max) == Progress([], ReadingHeader([]), 0, start, 0, Running)
    ensures Goodbye(l, events, Received(events[..0], start, max)) == []
  {}

  lemma ReceivedNext(l: Link, events: seq<RecvEvent>, k: nat, start: nat, max: nat)
    requires k < |events|
    ensures Received(events[..k + 1], start, max) ==
      var p := Received(events[..k], start, max);
      if p.exit.Running? then Took(p, events[k], max) else p
    ensures forall p: Progress :: p.used == k + 1 ==> Goodbye(l, events, p) == Leaving(l, p.exit, events[k])
  {
    hide Took, Leaving;
    assert events[..k + 1][..k] == events[..k];
  }

  /** Nothing is received once the loop has ended. */
  lemma {:induction false} ReceivedStops(events: seq<RecvEvent>, k: nat, start: nat, max: nat)
    requires k <= |events| && !Received(events[..k], start, max).exit.Running?
    ensures Received(events, start, max) == Received(events[..k], start, max)
    decreases |events|
  {
    hide Took;
    if k < |events| {
      var before := events[..|events| - 1];
      assert before[..k] == events[..k];
      ReceivedStops(before, k, start, max);
    } else {
      assert events[..k] == events;
    }
  }

  lemma LoopEnds(events: seq<RecvEvent>, used: nat, start: nat, max: nat)
    requires used <= |events| && (used < |events| ==> !Received(events[..used], start, max).exit.Running?)
    ensures Received(events, start, max) == Received(events[..used], start, max)
  {
    if used < |events| { ReceivedStops(events, used, start, max); } else { assert events[..used] == events; }
  }
}

/** What the receive loop lets through and when it ends, for any clock, any chunks and any hang-ups
    (src/network/connection.cpp). The runs are those of Connection.Connection.RecvLoop. */
module ReceiveRate {
  import opened Text
  import opened Protocol
  import opened Connection

  /** The chunks that recv returned. */
  function Chunks(events: seq<RecvEvent>): seq<seq<byte>> {
    if events == [] then []
    else
      var e := events[|events| - 1];
      Chunks(events[..|events| - 1]) + if e.Data? then [e.bytes] else []
  }

  ghost predicate Readable(events: seq<RecvEvent>, max: nat) {
    Parse(Flatten(Chunks(events)), max).error.None?
  }

  /** How many frames these chunks hand over. */
  function FrameTotal(events: seq<RecvEvent>, max: nat): nat { |Delivered(Chunks(events), max)| }

  // ---- The windows, by the clock alone ---------------------------------------

  /** The end of the last closed window: the first clock reading a second or more after the one before. */
  function CheckAt(events: seq<RecvEvent>, start: nat): nat
    decreases |events|, 0
  {
    if events == [] then start
    else
      var k := |events| - 1;
      if Closes(events, start, k) then events[k].now else CheckAt(events[..k], start)
  }

  predicate Closes(events: seq<RecvEvent>, start: nat, k: nat)
    requires k < |events|
    decreases k, 1
  {
    events[k].Data? && events[k].now - CheckAt(events[..k], start) >= SECOND
  }

  /** The frames handed over up to the end of the last closed window. */
  function Counted(events: seq<RecvEvent>, start: nat, max: nat): nat {
    if events == [] then 0
    else
      var k := |events| - 1;
      if Closes(events, start, k) then FrameTotal(events, max) else Counted(events[..k], start, max)
  }

  /** The frames of the window that event `k` closes, including its own. */
  function WindowFrames(events: seq<RecvEvent>, start: nat, max: nat, k: nat): int
    requires k < |events|
  {
    FrameTotal(events[..k + 1], max) - Counted(events[..k], start, max)
  }

  // ---- The loop is what the clock and the bytes say --------------------------

  /** Event `k` gives the loop no reason to end. */
  ghost predicate Harmless(events: seq<RecvEvent>, start: nat, max: nat, k: nat)
    requires k < |events|
  {
    && events[k].Data? && events[k].hangup.None? && Readable(events[..k + 1], max)
    && (Closes(events, start, k) ==> WindowFrames(events, start, max, k) <= MAX_FRAMES)
  }

  /** Why event `k` ends the loop, if it does; a violation comes before the rate, the rate before a hang-up. */
  ghost predicate EndsFor(events: seq<RecvEvent>, start: nat, max: nat, k: nat, exit: Exit)
    requires k < |events|
  {
    var e := events[k];
    match exit
    case Running => false
    case PeerClosed => e.Closed? && e.hangup.None?
    case ProtocolError(error) => e.Data? && Parse(Flatten(Chunks(events[..k + 1])), max).error == Some(error)
    case RateLimited =>
      && e.Data? && Readable(events[..k + 1], max)
      && Closes(events, start, k) && WindowFrames(events, start, max, k) > MAX_FRAMES
    case HungUp =>
      && e.hangup.Some?
      && (e.Data? ==> Readable(events[..k + 1], max))
      && (Closes(events, start, k) ==> WindowFrames(events, start, max, k) <= MAX_FRAMES)
  }

  /** The state of a loop that has used all events. */
  ghost predicate Matches(events: seq<RecvEvent>, start: nat, max: nat, p: Progress) {
    && p.used == |events| && p.lastCheck == CheckAt(events, start)
    && p.delivered == Delivered(Chunks(events), max) && p.held == After(Chunks(events), max)
    && p.frameCount == |p.delivered| - Counted(events, start, max)
    && Readable(events, max)
  }

  /** What one more chunk does to the reader. */
  lemma NextChunk(events: seq<RecvEvent>, k: nat, max: nat)
    requires k < |events| && Readable(events[..k], max)
    ensures var e := events[k]; var now := Chunks(events[..k + 1]); var before := Chunks(events[..k]);
      if e.Closed? then now == before else Feeds(before, e.bytes, now, max)
  {
    hide Parse, Resume, FeedSpec, Delivered, After, Flatten;
    var e, before := events[k], Chunks(events[..k]);
    assert events[..k + 1][..k] == events[..k];
    if e.Closed? {
      assert before + [] == before;
    } else {
      assert Chunks(events[..k + 1]) == before + [e.bytes];
      FeedsOn(before, e.bytes, max);
    }
  }

  ghost predicate Feeds(before: seq<seq<byte>>, bytes: seq<byte>, now: seq<seq<byte>>, max: nat) {
    var r, x := FeedSpec(After(before, max), bytes, max), Parse(Flatten(now), max).error;
    && After(now, max) == r.1
    && (if x.None? then r.0.Frames? else r.0 == Violation(x.value))
    && Delivered(now, max) == Delivered(before, max) + (if r.0.Frames? then r.0.frames else [])
  }

  lemma FeedsOn(before: seq<seq<byte>>, bytes: seq<byte>, max: nat)
    ensures Feeds(before, bytes, before + [bytes], max)
  {
    hide Parse, Resume, Flatten;
    var now := before + [bytes];
    assert now[..|now| - 1] == before;
    LastCall(now, max);
  }

  /** One turn keeps the loop what the clock and the bytes say, or ends it for one of the reasons. */
  lemma TurnMatches(events: seq<RecvEvent>, start: nat, max: nat, k: nat)
    requires k < |events| && Matches(events[..k], start, max, Received(events[..k], start, max))
    requires Received(events[..k], start, max).exit.Running?
    ensures var p := Received(events[..k + 1], start, max);
      && (if p.exit.Running? then Harmless(events, start, max, k) && Matches(events[..k + 1], start, max, p)
          else EndsFor(events, start, max, k, p.exit))
      && p.used == k + 1
      && p.delivered == Delivered(Chunks(events[..k + 1]), max) && p.held == After(Chunks(events[..k + 1]), max)
  {
    hide Parse, FeedSpec, Delivered, After, Flatten, Chunks;
    ReceivedNext(Link(true, true), events, k, start, max);
    NextChunk(events, k, max);
    NextWindow(events, k, start, max);
    hide Received, CheckAt, Counted;
    if events[k].Data? {
      ClosesIs(events, start, k);
    } else {
      NeverCloses(events, start, k);
    }
    hide Closes;
  }

  lemma NeverCloses(events: seq<RecvEvent>, start: nat, k: nat)
    requires k < |events| && events[k].Closed?
    ensures !Closes(events, start, k)
  {}

  lemma NextWindow(events: seq<RecvEvent>, k: nat, start: nat, max: nat)
    requires k < |events|
    ensures var now := events[..k + 1];
      && (Closes(now, start, k) <==> Closes(events, start, k))
      && CheckAt(now, start) == (if Closes(events, start, k) then events[k].now else CheckAt(events[..k], start))
      && Counted(now, start, max) ==
        (if Closes(events, start, k) then FrameTotal(now, max) else Counted(events[..k], start, max))
  {
    hide FrameTotal;
    assert events[..k + 1][..k] == events[..k];
  }

  lemma {:induction false} RunMatches(events: seq<RecvEvent>, start: nat, max: nat, k: nat)
    requires k <= |events|
    ensures Received(events[..k], start, max).exit.Running? <==>
      forall j :: 0 <= j < k ==> Harmless(events, start, max, j)
    ensures var p := Received(events[..k], start, max);
      p.exit.Running? ==> Matches(events[..k], start, max, p)
  {
    hide *;
    if k == 0 {
      StartMatches(start, max);
      assert events[..0] == [];
    } else {
      RunMatches(events, start, max, k - 1);
      ReceivedNext(Link(true, true), events, k - 1, start, max);
      if Received(events[..k - 1], start, max).exit.Running? {
        TurnMatches(events, start, max, k - 1);
        if Harmless(events, start, max, k - 1) { HarmlessGoesOn(events, start, max, k - 1); }
      } else {
        assert !forall j :: 0 <= j < k - 1 ==> Harmless(events, start, max, j);
      }
    }
  }

  lemma StartMatches(start: nat, max: nat)
    ensures Matches([], start, max, Received([], start, max)) && Received([], start, max).exit.Running?
  {}

  lemma HarmlessGoesOn(events: seq<RecvEvent>, start: nat, max: nat, k: nat)
    requires k < |events| && Harmless(events, start, max, k)
    ensures forall exit :: !EndsFor(events, start, max, k, exit)
  {
    hide Closes, WindowFrames, Parse;
  }

  lemma OneReason(events: seq<RecvEvent>, start: nat, max: nat, k: nat, x: Exit, y: Exit)
    requires k < |events| && EndsFor(events, start, max, k, x) && EndsFor(events, start, max, k, y)
    ensures x == y
  {
    hide Closes, WindowFrames, Parse;
  }

  /** How many events a run uses: all while it goes on, otherwise up to the one that ended it. */
  lemma {:induction false} LastUsed(events: seq<RecvEvent>, start: nat, max: nat) returns (u: nat)
    ensures u <= |events| && Received(events, start, max) == Received(events[..u], start, max)
    ensures Received(events, start, max).exit.Running? ==> u == |events|
    ensures !Received(events, start, max).exit.Running? ==>
      u > 0 && Received(events[..u - 1], start, max).exit.Running?
    decreases |events|
  {
    hide Took;
    assert events[..|events|] == events;
    u := |events|;
    if u > 0 && !Received(events[..u - 1], start, max).exit.Running? {
      var before := events[..u - 1];
      assert Received(events, start, max) == Received(before, start, max);
      var v := LastUsed(before, start, max);
      assert v > 0 && before[..v] == events[..v] && before[..v - 1] == events[..v - 1];
      u := v;
    }
  }

  // ---- Main results ----------------------------------------------------------

  /** The loop survives any events if and only if all are data without a hang-up, the bytes are well formed, and
      every window that the clock closed held at most 100 frames. */
  lemma StaysRunning(events: seq<RecvEvent>, start: nat, max: nat)
    ensures Received(events, start, max).exit.Running? <==>
      forall k :: 0 <= k < |events| ==> Harmless(events, start, max, k)
  {
    hide Harmless, Received;
    RunMatches(events, start, max, |events|);
    assert events[..|events|] == events;
  }

  /** Otherwise it used the events up to the first harmful one, and ended for exactly the reason that event gives;
      in particular for the rate exactly when the event closed a window with more than 100 frames. */
  lemma EndsForItsReason(events: seq<RecvEvent>, start: nat, max: nat, exit: Exit)
    requires !Received(events, start, max).exit.Running?
    ensures var p := Received(events, start, max);
      && 0 < p.used <= |events|
      && (forall j :: 0 <= j < p.used - 1 ==> Harmless(events, start, max, j))
      && (EndsFor(events, start, max, p.used - 1, exit) <==> exit == p.exit)
  {
    hide *;
    var p := Received(events, start, max);
    var u := LastUsed(events, start, max);
    RunMatches(events, start, max, u - 1);
    TurnMatches(events, start, max, u - 1);
    if EndsFor(events, start, max, u - 1, exit) { OneReason(events, start, max, u - 1, exit, p.exit); }
  }

  /** Whatever ends it, the frames handed over are those of the chunks used, in order. */
  lemma NothingLost(events: seq<RecvEvent>, start: nat, max: nat)
    ensures var p := Received(events, start, max);
      && p.used <= |events|
      && p.delivered == Delivered(Chunks(events[..p.used]), max) && p.held == After(Chunks(events[..p.used]), max)
  {
    hide Harmless, Received, Delivered, Chunks, After, Flatten;
    var u := LastUsed(events, start, max);
    if Received(events, start, max).exit.Running? {
      RunMatches(events, start, max, |events|);
    } else {
      RunMatches(events, start, max, u - 1);
      TurnMatches(events, start, max, u - 1);
    }
  }

  // ---- The frame with which the loop ends ------------------------------------

  /** The one DISCONNECT frame with this reason. */
  predicate SaysGoodbye(sent: seq<Packet>, reason: string) { sent == [Packet(DISCONNECT, reason)] }

  /** What the loop puts on the wire over all events. On an unusable link nothing; while it goes on, nothing; at the
      end of the stream nothing. A hang-up in its last event sends the hang-up's reason. Otherwise the rate and a
      protocol error each send one DISCONNECT that names them, the error by what is wrong with the first bad
      header among the bytes received. */
  lemma FarewellFrame(l: Link, events: seq<RecvEvent>, start: nat, max: nat)
    ensures var p := Received(events, start, max);
      && p.used <= |events| && (p.used == 0 ==> p.exit.Running?)
      && var sent := Goodbye(l, events, p);
      && (!Usable(l) || p.exit.Running? || p.exit.PeerClosed? ==> sent == [])
      && (Usable(l) && p.exit.HungUp? ==>
          var h := events[p.used - 1].hangup; h.Some? && SaysGoodbye(sent, h.value))
      && (Usable(l) && (p.exit.RateLimited? || p.exit.ProtocolError?) ==>
          SaysGoodbye(sent, match events[p.used - 1].hangup
            case Some(reason) => reason
            case None => Complaint(p.exit, Flatten(Chunks(events[..p.used])), max)))
  {
    var p := Received(events, start, max);
    hide *;
    NothingLost(events, start, max);
    if p.exit.Running? {
      QuietWhileRunning(l, events, p);
    } else {
      EndsForItsReason(events, start, max, p.exit);
      ReasonIs(events, start, max, p.used - 1, p.exit);
      LeavingIs(l, p.exit, events[p.used - 1]);
      GoodbyeIs(l, events, p);
      if p.exit.ProtocolError? { ErrorIsNamed(events, max, p.used, p.exit.error); }
      if p.exit.RateLimited? { RateIsNamed(Flatten(Chunks(events[..p.used])), max); }
    }
  }

  /** What is wrong with the header behind the valid frames of these bytes. */
  function Fault(bytes: seq<byte>, max: nat): Error {
    var n := WireLength(Parse(bytes, max).frames);
    if n + 12 <= |bytes| && Ours(bytes[n..n + 12]) then PayloadTooLarge else InvalidMagicOrVersion
  }

  /** The reason that the loop gives for itself: the rate, or what is wrong with the bytes. */
  function Complaint(exit: Exit, bytes: seq<byte>, max: nat): string {
    if exit.RateLimited? then "Rate limit exceeded" else "Protocol error: " + FaultText(Fault(bytes, max))
  }

  function FaultText(e: Error): string {
    match e
    case InvalidMagicOrVersion => "Protocol violation: invalid magic or version"
    case PayloadTooLarge => "Protocol violation: payload too large"
  }

  lemma RateIsNamed(bytes: seq<byte>, max: nat)
    ensures Complaint(RateLimited, bytes, max) == "Rate limit exceeded"
  {
    hide Fault;
  }

  lemma ErrorIsNamed(events: seq<RecvEvent>, max: nat, k: nat, error: Error)
    requires k <= |events| && Parse(Flatten(Chunks(events[..k])), max).error == Some(error)
    ensures Complaint(ProtocolError(error), Flatten(Chunks(events[..k])), max) == "Protocol error: " + What(error)
  {
    hide Fault, Parse, Flatten, Chunks, What, FaultText;
    FaultIs(Flatten(Chunks(events[..k])), max, error);
    SameText(error);
  }

  lemma FaultIs(bytes: seq<byte>, max: nat, error: Error)
    requires Parse(bytes, max).error == Some(error)
    ensures Fault(bytes, max) == error
  {
    hide Parse, Ours, AnnouncedLength;
    ErrorKind(bytes, max);
  }

  lemma SameText(e: Error)
    ensures What(e) == FaultText(e)
  {}

  lemma QuietWhileRunning(l: Link, events: seq<RecvEvent>, p: Progress)
    requires p.used <= |events| && p.exit.Running?
    ensures Goodbye(l, events, p) == []
  {}

  lemma GoodbyeIs(l: Link, events: seq<RecvEvent>, p: Progress)
    requires 0 < p.used <= |events|
    ensures Goodbye(l, events, p) == Leaving(l, p.exit, events[p.used - 1])
  {
    hide Leaving;
  }

  lemma LeavingIs(l: Link, exit: Exit, last: RecvEvent)
    requires !exit.Running?
    ensures !Usable(l) ==> Leaving(l, exit, last) == []
    ensures Usable(l) && last.hangup.Some? ==> SaysGoodbye(Leaving(l, exit, last), last.hangup.value)
    ensures Usable(l) && last.hangup.None? ==>
      match exit
      case RateLimited => SaysGoodbye(Leaving(l, exit, last), "Rate limit exceeded")
      case ProtocolError(e) => SaysGoodbye(Leaving(l, exit, last), "Protocol error: " + What(e))
      case _ => Leaving(l, exit, last) == []
  {
    hide What;
  }

  lemma ReasonIs(events: seq<RecvEvent>, start: nat, max: nat, k: nat, exit: Exit)
    requires k < |events| && EndsFor(events, start, max, k, exit)
    ensures match exit
      case PeerClosed => events[k].hangup.None?
      case HungUp => events[k].hangup.Some?
      case ProtocolError(e) => Parse(Flatten(Chunks(events[..k + 1])), max).error == Some(e)
      case _ => true
  {
    hide Parse, Closes, WindowFrames, Flatten, Chunks;
  }

  ghost predicate Monotone(events: seq<RecvEvent>, start: nat) {
    && (forall i :: 0 <= i < |events| && events[i].Data? ==> start <= events[i].now)
    && (forall i, j :: 0 <= i < j < |events| && events[i].Data? && events[j].Data? ==> events[i].now <= events[j].now)
  }

  /** Where the clock stands: at the start, or at the end of a window, to which the frames are counted. */
  ghost predicate Stands(events: seq<RecvEvent>, start: nat, max: nat, c: nat, n: int) {
    (c == start && n == 0) || exists k :: WindowEnd(events, max, k, c, n)
  }

  lemma {:induction false} CheckStands(events: seq<RecvEvent>, start: nat, max: nat)
    ensures Stands(events, start, max, CheckAt(events, start), Counted(events, start, max))
    decreases |events|
  {
    hide FrameTotal;
    if events != [] {
      var k := |events| - 1;
      var c, n := CheckAt(events, start), Counted(events, start, max);
      if Closes(events, start, k) {
        assert events[..k + 1] == events;
        assert WindowEnd(events, max, k, c, n);
      } else {
        CheckStands(events[..k], start, max);
        if exists j :: WindowEnd(events[..k], max, j, c, n) {
          var j :| WindowEnd(events[..k], max, j, c, n);
          assert events[..k][..j + 1] == events[..j + 1];
          assert WindowEnd(events, max, j, c, n);
        }
      }
    }
  }

  lemma LatestIsOpen(events: seq<RecvEvent>, start: nat)
    requires events != [] && events[|events| - 1].Data?
    ensures events[|events| - 1].now - CheckAt(events, start) < SECOND
  {}

  ghost predicate WindowEnd(events: seq<RecvEvent>, max: nat, k: int, c: nat, n: int) {
    0 <= k < |events| && events[k].Data? && c == events[k].now && n == FrameTotal(events[..k + 1], max)
  }

  /** The windows that the clock closed, each at least a second long and with at most 100 frames. */
  lemma {:induction false} ClosedWindows(events: seq<RecvEvent>, start: nat, max: nat, k: nat) returns (windows: nat)
    requires k <= |events| && Monotone(events, start) && forall j :: 0 <= j < k ==> Harmless(events, start, max, j)
    ensures CheckAt(events[..k], start) >= start + windows * SECOND
    ensures Counted(events[..k], start, max) <= MAX_FRAMES * windows
    decreases k
  {
    hide FrameTotal, Readable;
    if k == 0 {
      windows := 0;
      assert events[..0] == [];
    } else {
      windows := ClosedWindows(events, start, max, k - 1);
      assert Harmless(events, start, max, k - 1);
      NextWindow(events, k - 1, start, max);
      if Closes(events, start, k - 1) { windows := windows + 1; }
    }
  }

  /** The rate bound: while the loop survives, the frames handed over up to the last check are at most 100 for each
      full second since the start. The last check is the start or the time of a chunk, up to which they are
      counted, and the latest chunk came within a second of it. */
  lemma RateBound(events: seq<RecvEvent>, start: nat, max: nat)
    requires Monotone(events, start) && Received(events, start, max).exit.Running?
    ensures var p := Received(events, start, max); var counted := |p.delivered| - p.frameCount;
      && p.used == |events| && p.lastCheck >= start
      && counted <= 100 * ((p.lastCheck - start) / 1_000_000_000)
      && Stands(events, start, max, p.lastCheck, counted)
      && (events != [] ==> events[|events| - 1].Data? && events[|events| - 1].now - p.lastCheck < 1_000_000_000)
  {
    Limits();
    hide *;
    StaysRunning(events, start, max);
    RunMatches(events, start, max, |events|);
    assert events[..|events|] == events;
    var windows := ClosedWindows(events, start, max, |events|);
    CheckStands(events, start, max);
    MatchesIs(events, start, max);
    WindowsBound(windows, CheckAt(events, start) - start, Counted(events, start, max));
    if events != [] {
      HarmlessIsData(events, start, max, |events| - 1);
      LatestIsOpen(events, start);
    }
  }

  lemma MatchesIs(events: seq<RecvEvent>, start: nat, max: nat)
    requires Matches(events, start, max, Received(events, start, max))
    ensures var p := Received(events, start, max);
      && p.used == |events| && p.lastCheck == CheckAt(events, start)
      && |p.delivered| - p.frameCount == Counted(events, start, max)
  {
    hide CheckAt, Counted, Delivered, After, Readable, Received;
  }

  lemma HarmlessIsData(events: seq<RecvEvent>, start: nat, max: nat, k: nat)
    requires k < |events| && Harmless(events, start, max, k)
    ensures events[k].Data?
  {}

  /** The limit is 100 frames, and a window lasts a second of the nanosecond clock. */
  lemma Limits()
    ensures MAX_FRAMES == 100 && SECOND == 1_000_000_000
  {}

  lemma WindowsBound(windows: nat, elapsed: nat, counted: nat)
    requires elapsed >= windows * SECOND && counted <= MAX_FRAMES * windows
    ensures counted <= MAX_FRAMES * (elapsed / SECOND)
  {
    assert windows <= elapsed / SECOND;
  }

  // ---- The limit is not a limit per second -----------------------------------

  /** Data without hang-ups, all within the first second. */
  ghost predicate Burst(events: seq<RecvEvent>, start: nat) {
    forall k :: 0 <= k < |events| ==> events[k].Data? && events[k].hangup.None? && events[k].now < start + SECOND
  }

  lemma {:induction false} BurstIsOpen(events: seq<RecvEvent>, start: nat, k: nat)
    requires k <= |events| && Burst(events, start)
    ensures CheckAt(events[..k], start) == start
    ensures k < |events| ==> !Closes(events, start, k)
    decreases k
  {
    hide FrameTotal;
    if k > 0 {
      BurstIsOpen(events, start, k - 1);
      NextWindow(events, k - 1, start, 0);
    } else {
      assert events[..0] == [];
    }
  }

  /** No number of well-formed frames within a second ends the loop; all are handed over. */
  lemma BurstGoesUnpunished(events: seq<RecvEvent>, start: nat, max: nat)
    requires Burst(events, start) && Readable(events, max)
    ensures var p := Received(events, start, max);
      p.exit.Running? && p.delivered == Parse(Flatten(Chunks(events)), max).frames
  {
    hide Received, Parse, Closes, Flatten, Chunks, After, Delivered;
    forall k | 0 <= k < |events| ensures Harmless(events, start, max, k) {
      BurstIsOpen(events, start, k);
      ReadablePrefix(events, k + 1, max);
    }
    StaysRunning(events, start, max);
    RunMatches(events, start, max, |events|);
    assert events[..|events|] == events;
    ChunkingIndependence(Chunks(events), max);
  }

  /** What punishes a burst is the next chunk: it must come a second after the start or later, and the burst and
      that chunk must hold more than 100 frames. */
  lemma NextChunkPunishes(events: seq<RecvEvent>, e: RecvEvent, start: nat, max: nat)
    requires Burst(events, start) && e.Data? && Readable(events + [e], max)
    ensures Received(events + [e], start, max).exit == RateLimited <==>
      e.now - start >= 1_000_000_000 && FrameTotal(events + [e], max) > 100
  {
    hide Received, Parse, Flatten, Chunks, After, Delivered, FrameTotal, Matches, Closes;
    var all, k := events + [e], |events|;
    assert all[..k] == events && all[..k + 1] == all && events[..k] == events;
    ReadablePrefix(all, k, max);
    BurstGoesUnpunished(events, start, max);
    RunMatches(all, start, max, k);
    TurnMatches(all, start, max, k);
    BurstIsOpen(events, start, k);
    BurstUncounted(events, start, max, k);
    ClosesIs(all, start, k);
    var exit := Received(all, start, max).exit;
    if EndsFor(all, start, max, k, RateLimited) {
      if Harmless(all, start, max, k) { HarmlessGoesOn(all, start, max, k); }
      if EndsFor(all, start, max, k, exit) { OneReason(all, start, max, k, RateLimited, exit); }
    }
  }

  lemma ClosesIs(events: seq<RecvEvent>, start: nat, k: nat)
    requires k < |events| && events[k].Data?
    ensures Closes(events, start, k) <==> events[k].now - CheckAt(events[..k], start) >= SECOND
  {}

  lemma {:induction false} BurstUncounted(events: seq<RecvEvent>, start: nat, max: nat, k: nat)
    requires k <= |events| && Burst(events, start)
    ensures Counted(events[..k], start, max) == 0
    decreases k
  {
    hide FrameTotal;
    if k > 0 {
      BurstUncounted(events, start, max, k - 1);
      BurstIsOpen(events, start, k - 1);
      NextWindow(events, k - 1, start, max);
    } else {
      assert events[..0] == [];
    }
  }

  lemma ReadablePrefix(events: seq<RecvEvent>, k: nat, max: nat)
    requires k <= |events| && Readable(events, max)
    ensures Readable(events[..k], max)
  {
    hide Parse;
    var a, b := Flatten(Chunks(events[..k])), Flatten(Chunks(events));
    ChunksPrefix(events, k);
    ParseAppend(a, b[|a|..], max);
    assert b == a + b[|a|..];
  }

  lemma {:induction false} ChunksPrefix(events: seq<RecvEvent>, k: nat)
    requires k <= |events|
    ensures Flatten(Chunks(events[..k])) <= Flatten(Chunks(events))
    decreases |events|
  {
    if k == |events| {
      assert events[..k] == events;
    } else {
      var before := events[..|events| - 1];
      ChunksPrefix(before, k);
      assert before[..k] == events[..k];
      var c, e := Chunks(before), events[|events| - 1];
      if e.Data? { assert (c + [e.bytes])[..|c|] == c; } else { assert c + [] == c; }
    }
  }

  function Pings(n: nat): (fs: seq<Frame>)
    ensures |fs| == n
  {
    seq(n, _ => CreateFrame(PING, []))
  }

  /** For every n: n PING frames, each in a chunk of its own, at the very start. */
  function OneBurst(n: nat, start: nat): (events: seq<RecvEvent>)
    ensures |events| == n
  {
    seq(n, _ => Data(Serialize(CreateFrame(PING, [])), start, None))
  }

  lemma AnyBurstPasses(n: nat, start: nat, max: nat)
    ensures var events := OneBurst(n, start); var p := Received(events, start, max);
      && p.exit.Running? && |p.delivered| == n
      && forall k :: 0 <= k < n ==> events[k].Data? && |events[k].bytes| == HEADER_SIZE
  {
    hide Received, Parse, Stream, SerializeHeader;
    var events := OneBurst(n, start);
    BurstBytes(n, start);
    PingsParse(n, max);
    BurstGoesUnpunished(events, start, max);
  }

  lemma {:induction false} BurstBytes(n: nat, start: nat)
    ensures Flatten(Chunks(OneBurst(n, start))) == Stream(Pings(n))
  {
    hide *;
    BurstSplit(n, start);
    if n > 0 {
      BurstBytes(n - 1, start);
      OneMoreChunk(OneBurst(n, start));
      StreamAppend(Pings(n - 1), CreateFrame(PING, []));
    }
  }

  lemma BurstSplit(n: nat, start: nat)
    ensures n == 0 ==> Flatten(Chunks(OneBurst(0, start))) == Stream(Pings(0))
    ensures n > 0 ==>
      && OneBurst(n, start)[..n - 1] == OneBurst(n - 1, start)
      && OneBurst(n, start)[n - 1] == Data(Serialize(CreateFrame(PING, [])), start, None)
      && Pings(n) == Pings(n - 1) + [CreateFrame(PING, [])]
  {
    hide Serialize, CreateFrame;
    if n == 0 { assert OneBurst(0, start) == [] && Pings(0) == []; }
  }

  lemma OneMoreChunk(events: seq<RecvEvent>)
    requires events != [] && events[|events| - 1].Data?
    ensures Flatten(Chunks(events)) == Flatten(Chunks(events[..|events| - 1])) + events[|events| - 1].bytes
  {
    var c, e := Chunks(events[..|events| - 1]), events[|events| - 1];
    assert (c + [e.bytes])[..|c|] == c;
  }

  lemma PingsParse(n: nat, max: nat)
    ensures Parse(Stream(Pings(n)), max) == Parsed(Pings(n), ReadingHeader([]), None)
  {
    ParseStream(Pings(n), max);
  }

  /** m frames at the start and n at any time a second or more later. */
  function Trickle(m: nat, n: nat, start: nat, gap: nat): seq<RecvEvent> {
    [Data(Stream(Pings(m)), start, None), Data(Stream(Pings(n)), start + gap, None)]
  }

  /** However long the gap, a peer that sends its frames in these two chunks is cut off exactly when they are more
      than 100 in all: a slow one is punished, while AnyBurstPasses lets a fast one through. */
  lemma SlowPeerIsPunished(m: nat, n: nat, start: nat, gap: nat, max: nat)
    requires gap >= 1_000_000_000
    ensures Received(Trickle(m, n, start, gap), start, max).exit ==
      if m + n > 100 then RateLimited else Running
  {
    hide FeedSpec, Stream;
    var events := Trickle(m, n, start, gap);
    assert events[..1] == [events[0]] && events[..0] == [];
    ReceivedNext(Link(true, true), events, 0, start, max);
    ReceivedNext(Link(true, true), events, 1, start, max);
    assert events[..2] == events;
    NothingReceived(Link(true, true), events, start, max);
    FeedPings(m, max);
    FeedPings(n, max);
  }

  lemma FeedPings(n: nat, max: nat)
    ensures FeedSpec(ReadingHeader([]), Stream(Pings(n)), max) == (Frames(Pings(n)), ReadingHeader([]))
  {
    hide Stream;
    PingsParse(n, max);
    assert [] + Stream(Pings(n)) == Stream(Pings(n));
  }
}

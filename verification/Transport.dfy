/** Concurrent Connection::send calls over one TCP socket, in partial writes, composed with the
    receiving FrameReader (src/network/connection.cpp, src/network/tcp_socket.cpp). */
module Transport {
  import opened Text
  import opened Protocol

  // ---- TcpSocket::sendAll ----------------------------------------------------

  /** What one ::send call does: take some bytes, ask to be retried, or fail for good. */
  datatype SendResult = Took(n: nat) | Retry | Failed

  /** The bytes that the answers before the first failure would take. */
  function Offered(results: seq<SendResult>): nat {
    if results == [] || results[0].Failed? then 0
    else (if results[0].Took? then results[0].n else 0) + Offered(results[1..])
  }

  /** How much of `size` bytes gets through. */
  function Through(results: seq<SendResult>, size: nat): (k: nat)
    ensures k <= size
  {
    if Offered(results) < size then Offered(results) else size
  }

  /** The sizes of the partial writes, added up. */
  function Total(results: seq<SendResult>): nat {
    if results == [] then 0
    else Total(results[..|results| - 1]) + match results[|results| - 1] case Took(n) => n case _ => 0
  }

  /** Retries cost nothing, and what comes after a failure does not count. */
  lemma {:induction false} OfferedIs(results: seq<SendResult>, more: seq<SendResult>)
    requires forall i :: 0 <= i < |results| ==> !results[i].Failed?
    ensures Offered(results + [Failed] + more) == Total(results) == Offered(results)
    decreases |results|
  {
    if results == [] {
      assert results + [Failed] + more == [Failed] + more;
    } else {
      var rest := results[1..];
      assert (results + [Failed] + more)[1..] == rest + [Failed] + more;
      OfferedIs(rest, more);
      TotalFirst(results);
    }
  }

  lemma {:induction false} TotalFirst(results: seq<SendResult>)
    requires results != []
    ensures Total(results) == Total(results[1..]) + match results[0] case Took(n) => n case _ => 0
    decreases |results|
  {
    var k := |results| - 1;
    if k > 0 {
      TotalFirst(results[..k]);
      assert results[..k][1..] == results[1..][..k - 1];
    } else {
      assert results[1..] == [] && results[..0] == [];
    }
  }

  class TcpSocket {
    var valid: bool
    var wire: seq<byte>

    constructor ()
      ensures valid && wire == []
    {
      valid, wire := true, [];
    }

    /** The loop of sendAll over the answers of the operating system; when they end, the connection has failed. */
    method SendAll(data: seq<byte>, results: seq<SendResult>) returns (ok: bool)
      modifies this`wire
      ensures ok <==> valid && Offered(results) >= |data|
      ensures wire == old(wire) + if valid then data[..Through(results, |data|)] else []
    {
      assert wire == wire + [] == wire + data[..0];
      if !valid { return false; }
      var totalSent, i := 0, 0;
      assert results[0..] == results;
      while totalSent < |data|
        invariant 0 <= totalSent <= |data| && 0 <= i <= |results|
        invariant wire == old(wire) + data[..totalSent]
        invariant if totalSent < |data| then Offered(results) == totalSent + Offered(results[i..])
                  else Offered(results) >= |data|
        decreases |results| - i
      {
        if i == |results| || results[i].Failed? { return false; }
        assert results[i..][1..] == results[i + 1..];
        if results[i].Took? {
          var n := if results[i].n <= |data| - totalSent then results[i].n else |data| - totalSent;
          wire := wire + data[totalSent..totalSent + n];
          assert data[..totalSent + n] == data[..totalSent] + data[totalSent..totalSent + n];
          totalSent := totalSent + n;
        }
        i := i + 1;
      }
      assert data[..|data|] == data;
      return true;
    }
  }

  // ---- Senders and receiver as interleaved steps -----------------------------

  type ThreadId = nat

  /** A thread inside Connection::send: past the running_ test, or holding sendMutex_. */
  datatype Sender = Waiting(frame: Frame) | Writing(frame: Frame, sent: nat)

  datatype Net = Net(
    running: bool,
    open: bool,                       // the socket still takes bytes; once false, false for good
    senders: map<ThreadId, Sender>,
    holder: Option<ThreadId>,         // owner of sendMutex_
    order: seq<Frame>,                // frames in the order their threads took the mutex
    returned: seq<Frame>,             // frames whose send returned true, in that order
    wire: seq<byte>,
    read: nat,                        // bytes the receiver has taken from the socket
    held: ReaderState,
    delivered: seq<Frame>)

  datatype Action =
    | Call(t: ThreadId, frame: Frame)
    | Lock(t: ThreadId)
    | Write(t: ThreadId, n: nat)
    | Return(t: ThreadId)
    | Fail(t: ThreadId)
    | Close
    | Recv(n: nat)

  const START := Net(true, true, map[], None, [], [], [], 0, ReadingHeader([]), [])

  predicate InWrite(s: Net, t: ThreadId) {
    s.holder == Some(t) && t in s.senders && s.senders[t].Writing?
  }

  /** One atomic step; an action that is not enabled changes nothing. */
  function Step(s: Net, a: Action, max: nat): Net {
    match a
    case Call(t, f) =>
      if !s.running || t in s.senders then s else s.(senders := s.senders[t := Waiting(f)])
    case Lock(t) =>
      if t !in s.senders || !s.senders[t].Waiting? || s.holder.Some? then s
      else
        var f := s.senders[t].frame;
        s.(senders := s.senders[t := Writing(f, 0)], holder := Some(t), order := s.order + [f])
    case Write(t, n) =>
      if !InWrite(s, t) || !s.open then s
      else
        var w := s.senders[t];
        var data := Serialize(w.frame);
        if w.sent + n > |data| then s
        else s.(senders := s.senders[t := Writing(w.frame, w.sent + n)],
                wire := s.wire + data[w.sent..w.sent + n])
    case Return(t) =>
      if !InWrite(s, t) || s.senders[t].sent != |Serialize(s.senders[t].frame)| then s
      else s.(senders := s.senders - {t}, holder := None, returned := s.returned + [s.senders[t].frame])
    case Fail(t) =>
      if !InWrite(s, t) || s.senders[t].sent >= |Serialize(s.senders[t].frame)| then s
      else s.(senders := s.senders - {t}, holder := None, open := false)
    case Close => s.(running := false, open := false)
    case Recv(n) =>
      if s.read + n > |s.wire| then s
      else
        var r := FeedSpec(s.held, s.wire[s.read..s.read + n], max);
        s.(read := s.read + n, held := r.1,
           delivered := s.delivered + if r.0.Frames? then r.0.frames else [])
  }

  function Run(actions: seq<Action>, max: nat): Net {
    if actions == [] then START
    else Step(Run(actions[..|actions| - 1], max), actions[|actions| - 1], max)
  }

  /** Every frame handed to send comes from Frame::create and fits the payload limit. */
  ghost predicate CallsFit(actions: seq<Action>, max: nat) {
    forall i :: 0 <= i < |actions| && actions[i].Call? ==> Sendable(actions[i].frame, max)
  }

  /** Steps from any state. */
  function Steps(s: Net, actions: seq<Action>, max: nat): Net
    decreases |actions|
  {
    if actions == [] then s else Steps(Step(s, actions[0], max), actions[1..], max)
  }

  // ---- One sendAll is a sequence of steps ------------------------------------

  /** The writes of a sendAll with `left` bytes to go, and how it ends. */
  function SendActions(t: ThreadId, results: seq<SendResult>, left: nat): seq<Action>
    decreases |results|
  {
    if left == 0 then [Return(t)]
    else if results == [] || results[0].Failed? then [Fail(t)]
    else if results[0].Retry? then SendActions(t, results[1..], left)
    else
      var n := if results[0].n <= left then results[0].n else left;
      [Write(t, n)] + SendActions(t, results[1..], left - n)
  }

  /** The net after thread `t` has written `k` bytes more of its frame and given up the mutex. */
  function AfterSend(s: Net, t: ThreadId, k: nat, ok: bool): Net
    requires InWrite(s, t) && s.senders[t].sent + k <= |Serialize(s.senders[t].frame)|
  {
    var w := s.senders[t];
    s.(wire := s.wire + Serialize(w.frame)[w.sent..w.sent + k], senders := s.senders - {t}, holder := None,
       open := s.open && ok, returned := s.returned + if ok then [w.frame] else [])
  }

  lemma {:induction false} WritesAre(s: Net, t: ThreadId, results: seq<SendResult>, left: nat, max: nat)
    requires InWrite(s, t) && s.open && s.senders[t].sent + left == |Serialize(s.senders[t].frame)|
    ensures Steps(s, SendActions(t, results, left), max) ==
      AfterSend(s, t, Through(results, left), Offered(results) >= left)
    decreases |results|
  {
    SendActionsAre(t, results, left);
    hide Serialize, Step, Steps, SendActions, AfterSend, InWrite;
    if left == 0 || results == [] || results[0].Failed? {
      EndsOnce(s, t, left, max);
    } else if results[0].Retry? {
      WritesAre(s, t, results[1..], left, max);
    } else {
      var n := if results[0].n <= left then results[0].n else left;
      StepsFirst(s, Write(t, n), SendActions(t, results[1..], left - n), max);
      OneWrite(s, t, n, max);
      WriteThen(s, t, n, Through(results[1..], left - n), Offered(results[1..]) >= left - n, max);
      WritesAre(Step(s, Write(t, n), max), t, results[1..], left - n, max);
    }
  }

  lemma SendActionsAre(t: ThreadId, results: seq<SendResult>, left: nat)
    ensures SendActions(t, results, left) ==
      if left == 0 then [Return(t)]
      else if results == [] || results[0].Failed? then [Fail(t)]
      else if results[0].Retry? then SendActions(t, results[1..], left)
      else
        var n := if results[0].n <= left then results[0].n else left;
        [Write(t, n)] + SendActions(t, results[1..], left - n)
  {}

  lemma StepsFirst(s: Net, a: Action, rest: seq<Action>, max: nat)
    ensures Steps(s, [a] + rest, max) == Steps(Step(s, a, max), rest, max)
    ensures Steps(s, [a], max) == Step(s, a, max)
  {
    hide Step;
    assert ([a] + rest)[1..] == rest && [a][1..] == [];
  }

  lemma EndsOnce(s: Net, t: ThreadId, left: nat, max: nat)
    requires InWrite(s, t) && s.open && s.senders[t].sent + left == |Serialize(s.senders[t].frame)|
    ensures Steps(s, [if left == 0 then Return(t) else Fail(t)], max) == AfterSend(s, t, 0, left == 0)
  {
    hide Serialize, FeedSpec;
    var data := Serialize(s.senders[t].frame);
    assert s.wire + data[s.senders[t].sent..s.senders[t].sent + 0] == s.wire;
    assert s.returned + [] == s.returned;
    StepsFirst(s, if left == 0 then Return(t) else Fail(t), [], max);
  }

  lemma OneWrite(s: Net, t: ThreadId, n: nat, max: nat)
    requires InWrite(s, t) && s.open && s.senders[t].sent + n <= |Serialize(s.senders[t].frame)|
    ensures var s' := Step(s, Write(t, n), max); var w := s.senders[t];
      && s' == s.(senders := s.senders[t := Writing(w.frame, w.sent + n)],
                  wire := s.wire + Serialize(w.frame)[w.sent..w.sent + n])
      && InWrite(s', t)
  {
    hide Serialize;
  }

  lemma WriteThen(s: Net, t: ThreadId, n: nat, k: nat, ok: bool, max: nat)
    requires InWrite(s, t) && s.open && s.senders[t].sent + n + k <= |Serialize(s.senders[t].frame)|
    ensures InWrite(Step(s, Write(t, n), max), t)
    ensures AfterSend(Step(s, Write(t, n), max), t, k, ok) == AfterSend(s, t, n + k, ok)
  {
    hide Serialize;
    OneWrite(s, t, n, max);
    var w, s' := s.senders[t], Step(s, Write(t, n), max);
    var data := Serialize(w.frame);
    assert data[w.sent..w.sent + (n + k)] == data[w.sent..w.sent + n] + data[w.sent + n..w.sent + n + k];
    assert s'.senders - {t} == s.senders - {t};
  }

  /** A Connection::send that takes the free mutex is Lock, some Writes, and Return or Fail. Its effect on the wire
      and its result are those of TcpSocket.SendAll on the serialized frame, on an open socket and on a closed one. */
  lemma SendIsSteps(s: Net, t: ThreadId, results: seq<SendResult>, max: nat)
    requires t in s.senders && s.senders[t].Waiting? && s.holder.None?
    ensures var f := s.senders[t].frame; var data := Serialize(f);
      var acts := [Lock(t)] + if s.open then SendActions(t, results, |data|) else [Fail(t)];
      var ok := s.open && Offered(results) >= |data|;
      Steps(s, acts, max) == s.(
        order := s.order + [f], senders := s.senders - {t}, open := ok,
        returned := s.returned + (if ok then [f] else []),
        wire := s.wire + if s.open then data[..Through(results, |data|)] else [])
  {
    hide Serialize, FeedSpec;
    var f := s.senders[t].frame;
    var data := Serialize(f);
    var l := Step(s, Lock(t), max);
    var rest := if s.open then SendActions(t, results, |data|) else [Fail(t)];
    StepsFirst(s, Lock(t), rest, max);
    assert l.senders - {t} == s.senders - {t};
    assert s.returned + [] == s.returned && s.wire + [] == s.wire;
    if s.open {
      WritesAre(l, t, results, |data|, max);
      var k := Through(results, |data|);
      assert data[0..0 + k] == data[..k];
    } else {
      SerializeIsLong(f);
      StepsFirst(l, Fail(t), [], max);
      hide Steps;
    }
  }

  // ---- Invariant -------------------------------------------------------------

  ghost predicate FramesFit(s: Net, max: nat) {
    && (forall t :: t in s.senders ==> Sendable(s.senders[t].frame, max))
    && (forall i :: 0 <= i < |s.order| ==> Sendable(s.order[i], max))
  }

  /** The mutex: at most its holder is writing, and its frame is the last of `order`. */
  ghost predicate MutexInv(s: Net) {
    && (forall t :: t in s.senders && s.senders[t].Writing? ==> s.holder == Some(t))
    && (s.holder.Some? ==>
        && InWrite(s, s.holder.value) && s.order != []
        && s.order[|s.order| - 1] == s.senders[s.holder.value].frame
        && s.senders[s.holder.value].sent <= |Serialize(s.senders[s.holder.value].frame)|)
  }

  /** What the holder has put on the wire of its frame. */
  function Partial(s: Net): seq<byte>
    requires s.holder.Some? ==>
      InWrite(s, s.holder.value) && s.senders[s.holder.value].sent <= |Serialize(s.senders[s.holder.value].frame)|
  {
    if s.holder.None? then []
    else Serialize(s.senders[s.holder.value].frame)[..s.senders[s.holder.value].sent]
  }

  /** While the socket is open the wire carries exactly the returned frames and the part of
      the holder's frame; afterwards it stays a prefix of what `order` would give. */
  ghost predicate WireInv(s: Net)
    requires MutexInv(s)
  {
    && Stream(s.returned) <= s.wire <= Stream(s.order)
    && s.returned <= s.order
    && (s.open || Partial(s) != [] ==>
        && s.wire == Stream(s.returned) + Partial(s)
        && |s.order| == |s.returned| + if s.holder.Some? then 1 else 0)
  }

  ghost predicate ReaderInv(s: Net, max: nat) {
    && s.read <= |s.wire|
    && var p := Parse(s.wire[..s.read], max);
       p.error.None? && s.held == p.rest && s.delivered == p.frames
  }

  ghost predicate Inv(s: Net, max: nat) {
    FramesFit(s, max) && MutexInv(s) && WireInv(s) && ReaderInv(s, max)
  }

  lemma {:induction false} StreamPrefix(a: seq<Frame>, b: seq<Frame>)
    requires a <= b
    ensures Stream(a) <= Stream(b)
  {
    if a != [] {
      StreamPrefix(a[1..], b[1..]);
    }
  }

  lemma LockKeeps(s: Net, t: ThreadId, max: nat)
    requires Inv(s, max)
    ensures var s' := Step(s, Lock(t), max); FramesFit(s', max) && MutexInv(s') && WireInv(s')
  {
    hide Serialize, Parse, FeedSpec, Stream, Sendable;
    var s' := Step(s, Lock(t), max);
    if s' != s {
      var f := s.senders[t].frame;
      StreamAppend(s.order, f);
      assert Partial(s') == [];
      assert Stream(s.returned) + [] == Stream(s.returned);
    }
  }

  lemma WriteKeeps(s: Net, t: ThreadId, n: nat, max: nat)
    requires Inv(s, max)
    ensures var s' := Step(s, Write(t, n), max);
      FramesFit(s', max) && MutexInv(s') && WireInv(s') && s.wire <= s'.wire
  {
    hide Serialize, Parse, FeedSpec, Stream, Sendable;
    var s' := Step(s, Write(t, n), max);
    if s' != s {
      var w := s.senders[t];
      var data, k := Serialize(w.frame), s.senders[t].sent;
      assert data[..k + n] == data[..k] + data[k..k + n];
      assert s.order == s.returned + [w.frame];
      StreamAppend(s.returned, w.frame);
      assert s'.wire == Stream(s.returned) + data[..k + n];
    }
  }

  lemma ReturnKeeps(s: Net, t: ThreadId, max: nat)
    requires Inv(s, max)
    ensures var s' := Step(s, Return(t), max); FramesFit(s', max) && MutexInv(s') && WireInv(s')
  {
    hide Parse, FeedSpec, Serialize, Sendable;
    var s' := Step(s, Return(t), max);
    if s' != s {
      var f := s.senders[t].frame;
      SerializeIsLong(f);
      assert Partial(s) == Serialize(f) && Partial(s') == [];
      StreamAppend(s.returned, f);
      assert s.order == s.returned + [f];
      assert Stream(s'.returned) + [] == Stream(s'.returned);
    }
  }

  lemma SerializeIsLong(f: Frame)
    ensures |Serialize(f)| >= HEADER_SIZE
  {}

  lemma FailKeeps(s: Net, t: ThreadId, max: nat)
    requires Inv(s, max)
    ensures var s' := Step(s, Fail(t), max); FramesFit(s', max) && MutexInv(s') && WireInv(s')
  {
    hide Parse, FeedSpec, Serialize, Stream, Sendable;
    var s' := Step(s, Fail(t), max);
    if s' != s {
      assert Partial(s') == [];
    }
  }

  lemma RecvKeeps(s: Net, n: nat, max: nat)
    requires Inv(s, max)
    ensures ReaderInv(Step(s, Recv(n), max), max)
  {
    hide Serialize, Stream, Parse, Resume, Sendable;
    var s' := Step(s, Recv(n), max);
    if s.read + n <= |s.wire| {
      var a, b := s.wire[..s.read], s.wire[s.read..s.read + n];
      assert s'.wire[..s'.read] == a + b;
      ParseAppend(a, b, max);
      assert a + b <= s.wire <= Stream(s.order);
      ParseStreamPrefix(s.order, a + b, max);
    }
  }

  lemma StepKeeps(s: Net, a: Action, max: nat)
    requires Inv(s, max) && (a.Call? ==> Sendable(a.frame, max))
    ensures Inv(Step(s, a, max), max)
  {
    hide Serialize, Parse, FeedSpec, Stream, Sendable;
    match a
    case Call(t, f) =>
    case Lock(t) => LockKeeps(s, t, max);
    case Write(t, n) =>
      WriteKeeps(s, t, n, max);
      assert Step(s, a, max).wire[..s.read] == s.wire[..s.read];
    case Return(t) => ReturnKeeps(s, t, max);
    case Fail(t) => FailKeeps(s, t, max);
    case Close =>
    case Recv(n) => RecvKeeps(s, n, max);
  }

  lemma {:induction false} RunKeeps(actions: seq<Action>, max: nat)
    requires CallsFit(actions, max)
    ensures Inv(Run(actions, max), max)
  {
    if actions != [] {
      hide Step, Inv;
      var k := |actions| - 1;
      RunKeeps(actions[..k], max);
      assert actions[k].Call? ==> Sendable(actions[k].frame, max);
      StepKeeps(Run(actions[..k], max), actions[k], max);
    }
  }

  /** However sends interleave, however the socket splits them and whenever it fails: the
      receiver's frames are a prefix of the frames in mutex order, and so are the frames whose
      send returned true. Once every byte is read, each of the latter has been received; and if
      the socket is open and no send is in progress, all frames have been, in that order. */
  lemma SentFramesArriveInOrder(actions: seq<Action>, max: nat)
    requires CallsFit(actions, max)
    ensures var s := Run(actions, max);
      && s.delivered <= s.order && s.returned <= s.order
      && (s.read == |s.wire| ==> s.returned <= s.delivered)
      && (s.read == |s.wire| && s.open && s.holder.None? ==> s.delivered == s.order == s.returned)
  {
    hide Serialize, Step, Parse;
    var s := Run(actions, max);
    RunKeeps(actions, max);
    ParseStreamPrefix(s.order, s.wire[..s.read], max);
    if s.read == |s.wire| {
      assert s.wire[..s.read] == s.wire;
      ReturnedParse(s, max);
    }
  }

  lemma ReturnedParse(s: Net, max: nat)
    requires Inv(s, max)
    ensures s.returned <= Parse(s.wire, max).frames
  {
    hide Parse, Resume, Sendable, Serialize;
    var tail := s.wire[|Stream(s.returned)|..];
    assert s.wire == Stream(s.returned) + tail;
    forall i | 0 <= i < |s.returned| ensures Sendable(s.returned[i], max) {
      assert s.returned[i] == s.order[i];
    }
    ParseStream(s.returned, max);
    ParseAppend(Stream(s.returned), tail, max);
  }

  // ---- After disconnect, or a failure ----------------------------------------

  /** At most the holder of the mutex writes, and the wire ends with what it has written of its frame. */
  ghost predicate OneWriter(s: Net) {
    && (forall t :: t in s.senders && s.senders[t].Writing? ==> s.holder == Some(t))
    && (s.holder.Some? && InWrite(s, s.holder.value) ==> Written(s, s.senders[s.holder.value]))
  }

  ghost predicate Written(s: Net, w: Sender)
    requires w.Writing?
  {
    w.sent <= |Serialize(w.frame)| && EndsWith(s.wire, Serialize(w.frame)[..w.sent])
  }

  ghost predicate EndsWith(t: seq<byte>, u: seq<byte>) { |u| <= |t| && t[|t| - |u|..] == u }

  lemma OneWriterStep(s: Net, a: Action, max: nat)
    requires OneWriter(s)
    ensures OneWriter(Step(s, a, max))
  {
    hide Serialize, FeedSpec;
    if a.Write? && InWrite(s, a.t) && s.open {
      var w := s.senders[a.t];
      var data := Serialize(w.frame);
      if w.sent + a.n <= |data| {
        assert data[..w.sent + a.n] == data[..w.sent] + data[w.sent..w.sent + a.n];
      }
    }
  }

  lemma {:induction false} RunOneWriter(actions: seq<Action>, max: nat)
    ensures OneWriter(Run(actions, max))
  {
    if actions != [] {
      hide Step, OneWriter;
      RunOneWriter(actions[..|actions| - 1], max);
      OneWriterStep(Run(actions[..|actions| - 1], max), actions[|actions| - 1], max);
    } else {
      hide Run;
      assert OneWriter(START);
      StartIs(max);
    }
  }

  lemma StartIs(max: nat)
    ensures Run([], max) == START
  {}

  /** Thread `t` holds the mutex and has written its whole frame. */
  ghost predicate Complete(s: Net, t: ThreadId) {
    InWrite(s, t) && s.senders[t].sent == |Serialize(s.senders[t].frame)|
  }

  /** A send returns true exactly when its whole frame is written, and fails only before. */
  lemma ReturnsWhenComplete(s: Net, t: ThreadId, max: nat)
    requires InWrite(s, t) && s.senders[t].sent <= |Serialize(s.senders[t].frame)|
    ensures var r, f := Step(s, Return(t), max), Step(s, Fail(t), max);
      if Complete(s, t) then f == s && r.returned == s.returned + [s.senders[t].frame] && t !in r.senders
      else r == s && !f.open && f.returned == s.returned && t !in f.senders
  {
    hide Serialize, FeedSpec;
  }

  /** `z` comes some time after `s`, whose socket is closed. */
  ghost predicate Later(s: Net, z: Net) {
    && !z.open && z.wire == s.wire && (z.running ==> s.running)
    && (!s.running ==> forall t :: t in z.senders ==> t in s.senders && z.senders[t].frame == s.senders[t].frame)
    && (if z.returned == s.returned then forall t :: Complete(z, t) ==> Complete(s, t) && z.senders[t] == s.senders[t]
        else (forall t :: !Complete(z, t)) && ReturnedLast(s, z))
  }

  /** One more frame was returned: one whose bytes were all on the wire. */
  ghost predicate ReturnedLast(s: Net, z: Net) {
    && s.holder.Some? && Complete(s, s.holder.value)
    && z.returned == s.returned + [s.senders[s.holder.value].frame]
  }

  lemma LaterStep(s: Net, z: Net, a: Action, max: nat)
    requires Later(s, z)
    ensures Later(s, Step(z, a, max))
  {
    hide Serialize, FeedSpec;
    match a
    case Call(t, f) => CallLater(s, z, a, max);
    case Lock(t) => LockLater(s, z, a, max);
    case Write(t, n) => assert Step(z, a, max) == z;
    case Return(t) => EndLater(s, z, a, max);
    case Fail(t) => EndLater(s, z, a, max);
    case Close => SameSenders(s, z, a, max);
    case Recv(n) => SameSenders(s, z, a, max);
  }

  lemma SameSenders(s: Net, z: Net, a: Action, max: nat)
    requires Later(s, z) && (a.Close? || a.Recv?)
    ensures Later(s, Step(z, a, max))
  {
    hide Serialize, FeedSpec;
    var z' := Step(z, a, max);
    assert forall t :: Complete(z', t) <==> Complete(z, t);
  }

  lemma CallLater(s: Net, z: Net, a: Action, max: nat)
    requires Later(s, z) && a.Call?
    ensures Later(s, Step(z, a, max))
  {
    hide Serialize;
    var z' := Step(z, a, max);
    assert forall t :: Complete(z', t) ==> Complete(z, t) && z'.senders[t] == z.senders[t];
  }

  lemma LockLater(s: Net, z: Net, a: Action, max: nat)
    requires Later(s, z) && a.Lock?
    ensures Later(s, Step(z, a, max))
  {
    hide Serialize;
    var z' := Step(z, a, max);
    if z' != z {
      SerializeIsLong(z.senders[a.t].frame);
      assert forall t :: !Complete(z', t);
    }
  }

  lemma EndLater(s: Net, z: Net, a: Action, max: nat)
    requires Later(s, z) && (a.Return? || a.Fail?)
    ensures Later(s, Step(z, a, max))
  {
    hide Serialize;
    var z' := Step(z, a, max);
    if z' != z {
      assert forall t :: !Complete(z', t);
      if a.Return? { assert Complete(z, a.t); }
    }
  }

  lemma {:induction false} RunsLater(before: seq<Action>, after: seq<Action>, max: nat)
    requires !Run(before, max).open
    ensures Later(Run(before, max), Run(before + after, max))
    decreases |after|
  {
    hide Step, Later;
    if after == [] {
      assert before + after == before;
      LaterStarts(Run(before, max));
    } else {
      var k := |after| - 1;
      RunsLater(before, after[..k], max);
      assert (before + after)[..|before| + k] == before + after[..k];
      LaterStep(Run(before, max), Run(before + after[..k], max), after[k], max);
    }
  }

  lemma LaterStarts(s: Net)
    requires !s.open
    ensures Later(s, s)
  {
    hide Serialize;
  }

  /** disconnect closes the socket and lets no call of send in any more; a write that the system refuses ends
      the use of the socket too. */
  lemma EndsOpen(before: seq<Action>, a: Action, max: nat)
    requires a.Close? || (a.Fail? && InWrite(Run(before, max), a.t) && !Complete(Run(before, max), a.t))
    ensures var s, e := Run(before, max), Run(before + [a], max);
      && !e.open && e.wire == s.wire && e.returned == s.returned
      && (a.Close? ==> !e.running && e.senders == s.senders && e.holder == s.holder)
      && (a.Fail? ==> e.holder.None? && a.t !in e.senders)
  {
    hide Serialize;
    RunOneWriter(before, max);
    assert (before + [a])[..|before|] == before;
  }

  /** Once `disconnect` has closed the socket, or a write has failed, nothing is transmitted: in every continuation
      the wire stays what it was. At most one more send returns true, that of the holder of the mutex, and only if
      all bytes of its frame were on the wire by then. After `disconnect` no send begins. */
  lemma NothingAfterClose(before: seq<Action>, a: Action, after: seq<Action>, max: nat)
    requires a.Close? || (a.Fail? && InWrite(Run(before, max), a.t) && !Complete(Run(before, max), a.t))
    ensures var s, z := Run(before, max), Run(before + [a] + after, max);
      && z.wire == s.wire && !z.open
      && (z.returned != s.returned ==>
          && a.Close? && s.holder.Some? && Complete(s, s.holder.value)
          && z.returned == s.returned + [s.senders[s.holder.value].frame]
          && EndsWith(s.wire, Serialize(s.senders[s.holder.value].frame)))
      && (a.Close? ==>
          && !z.running
          && forall t :: t in z.senders ==> t in s.senders && z.senders[t].frame == s.senders[t].frame)
  {
    hide Serialize, Step, Run, EndsWith;
    var s := Run(before, max);
    EndsOpen(before, a, max);
    RunOneWriter(before, max);
    RunsLater(before + [a], after, max);
    if s.holder.Some? && Complete(s, s.holder.value) {
      var f := s.senders[s.holder.value].frame;
      assert Serialize(f)[..|Serialize(f)|] == Serialize(f);
    }
  }
}

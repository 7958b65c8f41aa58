/** The bounded message queue as a monitor with two condition variables
    (src/chat/message_queue.cpp). */
module MessageQueue {
  import opened Text
  import opened Message

  // ---- What a call does under the mutex ---------------------------------------

  predicate Full(queue: seq<ChatMessage>, maxSize: nat) { |queue| >= maxSize }

  function Pushed(queue: seq<ChatMessage>, msg: ChatMessage): seq<ChatMessage> { queue + [msg] }

  function Front(queue: seq<ChatMessage>): ChatMessage
    requires queue != []
  {
    queue[0]
  }

  function Popped(queue: seq<ChatMessage>): seq<ChatMessage>
    requires queue != []
  {
    queue[1..]
  }

  /** The queue as one thread sees it while it holds the mutex; a wait whose predicate is false
      ends with its timeout. */
  class MessageQueue {
    var queue: seq<ChatMessage>
    const maxSize: nat

    constructor (maxSize: nat := 1000)
      ensures queue == [] && this.maxSize == maxSize
    {
      this.maxSize := maxSize;
      queue := [];
    }

    method Push(msg: ChatMessage) returns (ok: bool)
      modifies this
      ensures ok <==> |old(queue)| < maxSize
      ensures queue == if ok then old(queue) + [msg] else old(queue)
    {
      if |queue| >= maxSize { return false; }
      queue := queue + [msg];
      return true;
    }

    method Pop() returns (r: Option<ChatMessage>)
      modifies this
      ensures old(queue) == [] ==> r == None && queue == []
      ensures old(queue) != [] ==> r.Some? && old(queue) == [r.value] + queue
    {
      if queue == [] { return None; }
      r := Some(queue[0]);
      queue := queue[1..];
    }

    method Clear()
      modifies this
      ensures queue == []
    {
      queue := [];
    }

    /** The callback receives every pending message, oldest first. */
    method Drain() returns (calls: seq<ChatMessage>)
      modifies this
      ensures calls == old(queue) && queue == []
    {
      calls := [];
      while queue != []
        invariant calls + queue == old(queue)
        decreases |queue|
      {
        calls := calls + [queue[0]];
        queue := queue[1..];
      }
    }
  }

  // ---- All interleavings -----------------------------------------------------

  type ThreadId = nat

  /** The threads inside wait_for on one condition variable: asleep, woken and waiting to run,
      or past their timeout and waiting to run. */
  datatype Waiters = Waiters(asleep: set<ThreadId>, woken: set<ThreadId>, expired: set<ThreadId>)

  const NOBODY := Waiters({}, {}, {})

  datatype Monitor = Monitor(
    maxSize: nat,
    queue: seq<ChatMessage>,
    notFull: Waiters,                        // producers
    notEmpty: Waiters,                       // consumers
    offers: map<ThreadId, ChatMessage>,      // what each waiting producer wants to push
    pushed: seq<ChatMessage>,                // every message push accepted, in order
    removed: seq<ChatMessage>)               // every message that left the queue, in order

  /** One stretch of code under the mutex, or one event of a sleeping thread. `wakes` is the
      thread that notify_one picks. */
  datatype Action =
    | Push(t: ThreadId, msg: ChatMessage, wakes: Option<ThreadId>)   // a new call, before any woken thread
    | ResumePush(t: ThreadId, wakes: Option<ThreadId>)
    | Pop(t: ThreadId, wakes: Option<ThreadId>)
    | ResumePop(t: ThreadId, wakes: Option<ThreadId>)
    | TryPop(wakes: Option<ThreadId>)
    | Clear
    | Drain
    | Timeout(t: ThreadId)
    | Spurious(t: ThreadId)

  predicate Waiting(w: Waiters, t: ThreadId) { t in w.asleep + w.woken + w.expired }

  /** notify_one wakes a sleeper if there is one. */
  predicate CanWake(w: Waiters, wakes: Option<ThreadId>) {
    if w.asleep == {} then wakes.None? else wakes.Some? && wakes.value in w.asleep
  }

  function NotifyOne(w: Waiters, wakes: Option<ThreadId>): Waiters
    requires CanWake(w, wakes)
  {
    if wakes.None? then w
    else w.(asleep := w.asleep - {wakes.value}, woken := w.woken + {wakes.value})
  }

  function NotifyAll(w: Waiters): Waiters { w.(asleep := {}, woken := w.woken + w.asleep) }

  function Leave(w: Waiters, t: ThreadId): Waiters {
    w.(asleep := w.asleep - {t}, woken := w.woken - {t}, expired := w.expired - {t})
  }

  function Sleep(w: Waiters, t: ThreadId): Waiters {
    w.(asleep := w.asleep + {t}, woken := w.woken - {t}, expired := w.expired - {t})
  }

  function Enqueue(m: Monitor, msg: ChatMessage, wakes: Option<ThreadId>): Monitor
    requires CanWake(m.notEmpty, wakes)
  {
    m.(queue := Pushed(m.queue, msg), pushed := m.pushed + [msg], notEmpty := NotifyOne(m.notEmpty, wakes))
  }

  function Dequeue(m: Monitor, wakes: Option<ThreadId>): Monitor
    requires m.queue != [] && CanWake(m.notFull, wakes)
  {
    m.(queue := Popped(m.queue), removed := m.removed + [Front(m.queue)], notFull := NotifyOne(m.notFull, wakes))
  }

  // An action that is not enabled changes nothing.

  function NewPush(m: Monitor, t: ThreadId, msg: ChatMessage, wakes: Option<ThreadId>): Monitor {
    if Waiting(m.notFull, t) then m
    else if Full(m.queue, m.maxSize) then m.(notFull := Sleep(m.notFull, t), offers := m.offers[t := msg])
    else if CanWake(m.notEmpty, wakes) then Enqueue(m, msg, wakes)
    else m
  }

  /** The predicate is tested again: if it is still false, a timed-out call gives up and a
      woken one sleeps on. */
  function ResumedPush(m: Monitor, t: ThreadId, wakes: Option<ThreadId>): Monitor {
    if t !in m.notFull.woken + m.notFull.expired || t !in m.offers then m
    else if Full(m.queue, m.maxSize) then
      m.(notFull := if t in m.notFull.expired then Leave(m.notFull, t) else Sleep(m.notFull, t))
    else if CanWake(m.notEmpty, wakes) then
      Enqueue(m.(notFull := Leave(m.notFull, t)), m.offers[t], wakes)
    else m
  }

  function NewPop(m: Monitor, t: ThreadId, wakes: Option<ThreadId>): Monitor {
    if Waiting(m.notEmpty, t) then m
    else if m.queue == [] then m.(notEmpty := Sleep(m.notEmpty, t))
    else if CanWake(m.notFull, wakes) then Dequeue(m, wakes)
    else m
  }

  function ResumedPop(m: Monitor, t: ThreadId, wakes: Option<ThreadId>): Monitor {
    if t !in m.notEmpty.woken + m.notEmpty.expired then m
    else if m.queue == [] then
      m.(notEmpty := if t in m.notEmpty.expired then Leave(m.notEmpty, t) else Sleep(m.notEmpty, t))
    else if CanWake(m.notFull, wakes) then Dequeue(m.(notEmpty := Leave(m.notEmpty, t)), wakes)
    else m
  }

  /** One atomic step. */
  function Step(m: Monitor, a: Action): Monitor {
    match a
    case Push(t, msg, wakes) => NewPush(m, t, msg, wakes)
    case ResumePush(t, wakes) => ResumedPush(m, t, wakes)
    case Pop(t, wakes) => NewPop(m, t, wakes)
    case ResumePop(t, wakes) => ResumedPop(m, t, wakes)
    case TryPop(wakes) => if m.queue == [] || !CanWake(m.notFull, wakes) then m else Dequeue(m, wakes)
    case Clear => m.(queue := [], removed := m.removed + m.queue, notFull := NotifyAll(m.notFull))
    case Drain => m.(queue := [], removed := m.removed + m.queue, notFull := NotifyAll(m.notFull))
    case Timeout(t) => m.(notFull := Expire(m.notFull, t), notEmpty := Expire(m.notEmpty, t))
    case Spurious(t) => m.(notFull := Rouse(m.notFull, t), notEmpty := Rouse(m.notEmpty, t))
  }

  function Expire(w: Waiters, t: ThreadId): Waiters {
    if t in w.asleep then w.(asleep := w.asleep - {t}, expired := w.expired + {t}) else w
  }

  function Rouse(w: Waiters, t: ThreadId): Waiters {
    if t in w.asleep then w.(asleep := w.asleep - {t}, woken := w.woken + {t}) else w
  }

  function Run(maxSize: nat, actions: seq<Action>): Monitor {
    if actions == [] then Monitor(maxSize, [], NOBODY, NOBODY, map[], [], [])
    else Step(Run(maxSize, actions[..|actions| - 1]), actions[|actions| - 1])
  }

  // ---- Invariants ------------------------------------------------------------

  ghost predicate Disjoint(w: Waiters) { w.asleep !! w.woken !! w.expired }

  /** A wake-up on its way to a sleeper's condition for every unit that sleepers could use. */
  ghost predicate Covered(w: Waiters, units: int) {
    Disjoint(w) && (w.asleep != {} ==> units <= |w.woken|)
  }

  ghost predicate Inv(m: Monitor) {
    && |m.queue| <= m.maxSize
    && m.pushed == m.removed + m.queue
    && Covered(m.notFull, m.maxSize - |m.queue|)
    && Covered(m.notEmpty, |m.queue|)
    && (forall t :: Waiting(m.notFull, t) ==> t in m.offers)
  }

  lemma NotifyCovers(w: Waiters, wakes: Option<ThreadId>, units: int)
    requires Covered(w, units) && CanWake(w, wakes)
    ensures Covered(NotifyOne(w, wakes), units + 1)
  {}

  lemma LeaveCovers(w: Waiters, t: ThreadId, units: int)
    requires Covered(w, units) && t in w.woken + w.expired
    ensures Covered(Leave(w, t), units - 1)
    ensures t in w.expired ==> Covered(Leave(w, t), units)
  {}

  lemma EnqueueKeeps(m: Monitor, msg: ChatMessage, wakes: Option<ThreadId>)
    requires |m.queue| < m.maxSize && CanWake(m.notEmpty, wakes)
    requires m.pushed == m.removed + m.queue
    requires Covered(m.notFull, m.maxSize - |m.queue| - 1) && Covered(m.notEmpty, |m.queue|)
    requires forall t :: Waiting(m.notFull, t) ==> t in m.offers
    ensures Inv(Enqueue(m, msg, wakes))
  {
    NotifyCovers(m.notEmpty, wakes, |m.queue|);
    hide Covered, Waiting, CanWake, NotifyOne;
    assert m.removed + (m.queue + [msg]) == (m.removed + m.queue) + [msg];
  }

  lemma DequeueKeeps(m: Monitor, wakes: Option<ThreadId>)
    requires m.queue != [] && |m.queue| <= m.maxSize && CanWake(m.notFull, wakes)
    requires m.pushed == m.removed + m.queue
    requires Covered(m.notFull, m.maxSize - |m.queue|) && Covered(m.notEmpty, |m.queue| - 1)
    requires forall t :: Waiting(m.notFull, t) ==> t in m.offers
    ensures Inv(Dequeue(m, wakes))
  {
    hide Covered, Waiting, NotifyOne, CanWake;
    NotifyCovers(m.notFull, wakes, m.maxSize - |m.queue|);
    NotifiedWait(m.notFull, wakes);
    assert m.removed + m.queue == (m.removed + [m.queue[0]]) + m.queue[1..];
  }

  lemma NotifiedWait(w: Waiters, wakes: Option<ThreadId>)
    requires CanWake(w, wakes)
    ensures forall t :: Waiting(NotifyOne(w, wakes), t) ==> Waiting(w, t)
  {}

  lemma SleepCovers(w: Waiters, t: ThreadId)
    requires Disjoint(w)
    ensures Covered(Sleep(w, t), 0)
  {}

  lemma SleeperLeaves(w: Waiters, t: ThreadId, units: int)
    requires Covered(w, units)
    ensures Covered(Expire(w, t), units) && Covered(Rouse(w, t), units)
    ensures forall u :: Waiting(Expire(w, t), u) || Waiting(Rouse(w, t), u) ==> Waiting(w, u)
  {}

  lemma PushKeeps(m: Monitor, t: ThreadId, msg: ChatMessage, wakes: Option<ThreadId>)
    requires Inv(m)
    ensures Inv(NewPush(m, t, msg, wakes))
  {
    hide Enqueue, CanWake, Covered, Sleep;
    CoveredIsDisjoint(m.notFull, m.maxSize - |m.queue|);
    SleepCovers(m.notFull, t);
    OneMoreWaits(m.notFull, t);
    if |m.queue| >= m.maxSize {
    } else if CanWake(m.notEmpty, wakes) {
      EnqueueKeeps(m, msg, wakes);
    }
  }

  lemma ResumePushKeeps(m: Monitor, t: ThreadId, wakes: Option<ThreadId>)
    requires Inv(m)
    ensures Inv(ResumedPush(m, t, wakes))
  {
    hide Inv, Enqueue, CanWake, Leave, Sleep;
    if t in m.notFull.woken + m.notFull.expired {
      if |m.queue| >= m.maxSize {
        StillFullKeeps(m, t);
      } else if CanWake(m.notEmpty, wakes) {
        FreeSlotKeeps(m, t, wakes);
      }
    }
  }

  lemma StillFullKeeps(m: Monitor, t: ThreadId)
    requires Inv(m) && t in m.notFull.woken + m.notFull.expired && |m.queue| >= m.maxSize
    ensures t in m.notFull.expired ==> Inv(m.(notFull := Leave(m.notFull, t)))
    ensures Inv(m.(notFull := Sleep(m.notFull, t)))
  {
    hide Covered, Leave, Sleep, Waiting;
    StillWaiting(m.notFull, t);
    CoveredIsDisjoint(m.notFull, 0);
    LeaveCovers(m.notFull, t, 0);
    SleepCovers(m.notFull, t);
  }

  lemma FreeSlotKeeps(m: Monitor, t: ThreadId, wakes: Option<ThreadId>)
    requires Inv(m) && t in m.notFull.woken + m.notFull.expired && |m.queue| < m.maxSize && CanWake(m.notEmpty, wakes)
    ensures t in m.offers && Inv(Enqueue(m.(notFull := Leave(m.notFull, t)), m.offers[t], wakes))
  {
    hide Enqueue, CanWake, Covered, Leave, Waiting;
    StillWaiting(m.notFull, t);
    LeaveCovers(m.notFull, t, m.maxSize - |m.queue|);
    EnqueueKeeps(m.(notFull := Leave(m.notFull, t)), m.offers[t], wakes);
  }

  lemma StillWaiting(w: Waiters, t: ThreadId)
    requires t in w.woken + w.expired
    ensures Waiting(w, t)
    ensures forall u :: Waiting(Leave(w, t), u) || Waiting(Sleep(w, t), u) ==> Waiting(w, u)
  {}

  lemma OneMoreWaits(w: Waiters, t: ThreadId)
    ensures forall u :: Waiting(Sleep(w, t), u) ==> Waiting(w, u) || u == t
  {}

  lemma CoveredIsDisjoint(w: Waiters, units: int)
    requires Covered(w, units)
    ensures Disjoint(w) && Covered(w, units - 1)
  {}

  lemma PopKeeps(m: Monitor, t: ThreadId, wakes: Option<ThreadId>)
    requires Inv(m)
    ensures Inv(NewPop(m, t, wakes))
  {
    hide Dequeue, CanWake, Covered, Sleep, Waiting;
    CoveredIsDisjoint(m.notEmpty, |m.queue|);
    SleepCovers(m.notEmpty, t);
    if m.queue == [] {
    } else if CanWake(m.notFull, wakes) {
      DequeueKeeps(m, wakes);
    }
  }

  lemma ResumePopKeeps(m: Monitor, t: ThreadId, wakes: Option<ThreadId>)
    requires Inv(m)
    ensures Inv(ResumedPop(m, t, wakes))
  {
    hide Inv, Dequeue, CanWake, Leave, Sleep;
    if t in m.notEmpty.woken + m.notEmpty.expired {
      if m.queue == [] {
        StillEmptyKeeps(m, t);
      } else if CanWake(m.notFull, wakes) {
        ItemKeeps(m, t, wakes);
      }
    }
  }

  lemma StillEmptyKeeps(m: Monitor, t: ThreadId)
    requires Inv(m) && t in m.notEmpty.woken + m.notEmpty.expired && m.queue == []
    ensures t in m.notEmpty.expired ==> Inv(m.(notEmpty := Leave(m.notEmpty, t)))
    ensures Inv(m.(notEmpty := Sleep(m.notEmpty, t)))
  {
    hide Covered, Leave, Sleep, Waiting;
    CoveredIsDisjoint(m.notEmpty, 0);
    LeaveCovers(m.notEmpty, t, 0);
    SleepCovers(m.notEmpty, t);
  }

  lemma ItemKeeps(m: Monitor, t: ThreadId, wakes: Option<ThreadId>)
    requires Inv(m) && t in m.notEmpty.woken + m.notEmpty.expired && m.queue != [] && CanWake(m.notFull, wakes)
    ensures Inv(Dequeue(m.(notEmpty := Leave(m.notEmpty, t)), wakes))
  {
    hide Dequeue, CanWake, Covered, Leave, Waiting;
    LeaveCovers(m.notEmpty, t, |m.queue|);
    DequeueKeeps(m.(notEmpty := Leave(m.notEmpty, t)), wakes);
  }

  lemma SleeperKeeps(m: Monitor, a: Action)
    requires Inv(m) && (a.Timeout? || a.Spurious?)
    ensures Inv(Step(m, a))
  {
    hide Covered, Expire, Rouse, Waiting;
    SleeperLeaves(m.notFull, a.t, m.maxSize - |m.queue|);
    SleeperLeaves(m.notEmpty, a.t, |m.queue|);
  }

  lemma ClearKeeps(m: Monitor)
    requires Inv(m)
    ensures Inv(Step(m, Clear))
  {
    var w := NotifyAll(m.notFull);
    assert forall t :: Waiting(w, t) ==> Waiting(m.notFull, t);
  }

  lemma StepKeeps(m: Monitor, a: Action)
    requires Inv(m)
    ensures Inv(Step(m, a))
  {
    hide NewPush, ResumedPush, NewPop, ResumedPop, Dequeue, CanWake, Waiting, Expire, Rouse, NotifyAll;
    match a
    case Push(t, msg, wakes) => PushKeeps(m, t, msg, wakes);
    case ResumePush(t, wakes) => ResumePushKeeps(m, t, wakes);
    case Pop(t, wakes) => PopKeeps(m, t, wakes);
    case ResumePop(t, wakes) => ResumePopKeeps(m, t, wakes);
    case TryPop(wakes) => if m.queue != [] && CanWake(m.notFull, wakes) { DequeueKeeps(m, wakes); }
    case Clear => ClearKeeps(m);
    case Drain => ClearKeeps(m);
    case Timeout(t) => SleeperKeeps(m, a);
    case Spurious(t) => SleeperKeeps(m, a);
  }

  lemma {:induction false} RunKeeps(maxSize: nat, actions: seq<Action>)
    ensures Inv(Run(maxSize, actions)) && Run(maxSize, actions).maxSize == maxSize
  {
    hide Inv, Step;
    if actions == [] {
      StartInv(maxSize);
    } else {
      var k := |actions| - 1;
      RunKeeps(maxSize, actions[..k]);
      StepKeeps(Run(maxSize, actions[..k]), actions[k]);
      SizeFixed(Run(maxSize, actions[..k]), actions[k]);
    }
  }

  lemma SizeFixed(m: Monitor, a: Action)
    ensures Step(m, a).maxSize == m.maxSize
  {
    hide CanWake, NotifyOne;
  }

  lemma StartInv(maxSize: nat)
    ensures Inv(Run(maxSize, []))
  {}

  /** In every reachable state: while producers sleep, every free slot has a woken producer on
      its way; while consumers sleep, every queued item has a woken consumer on its way. */
  lemma NoLostWakeup(maxSize: nat, actions: seq<Action>)
    ensures var m := Run(maxSize, actions);
      && (m.notFull.asleep != {} ==> maxSize - |m.queue| <= |m.notFull.woken|)
      && (m.notEmpty.asleep != {} ==> |m.queue| <= |m.notEmpty.woken|)
  {
    RunKeeps(maxSize, actions);
  }

  /** Once every woken thread has run, no thread sleeps that could go on: sleeping producers
      mean a full queue, sleeping consumers an empty one, and never both at once. */
  lemma NobodySleepsInVain(maxSize: nat, actions: seq<Action>)
    ensures var m := Run(maxSize, actions);
      m.notFull.woken == {} && m.notEmpty.woken == {} ==>
        && (m.notFull.asleep != {} ==> |m.queue| == maxSize)
        && (m.notEmpty.asleep != {} ==> m.queue == [])
        && (maxSize > 0 ==> m.notFull.asleep == {} || m.notEmpty.asleep == {})
  {
    RunKeeps(maxSize, actions);
  }

  /** Over all interleavings the queue is first in, first out, loses and duplicates nothing,
      and never exceeds its bound. */
  lemma FifoOverAllRuns(maxSize: nat, actions: seq<Action>)
    ensures var m := Run(maxSize, actions);
      |m.queue| <= maxSize && m.removed <= m.pushed && m.queue == m.pushed[|m.removed|..]
  {
    RunKeeps(maxSize, actions);
  }

  /** A call that starts while the mutex is free does to the shared queue what the object's method does, or goes to
      sleep exactly where the method gives up. */
  lemma CallsAreSteps(m: Monitor, t: ThreadId, msg: ChatMessage, wakes: Option<ThreadId>)
    requires !Waiting(m.notFull, t) && !Waiting(m.notEmpty, t)
    ensures CanWake(m.notEmpty, wakes) ==>
      var m' := Step(m, Push(t, msg, wakes));
      && (|m.queue| >= m.maxSize ==>
          m'.queue == m.queue && m'.pushed == m.pushed && t in m'.notFull.asleep && m'.offers == m.offers[t := msg])
      && (|m.queue| < m.maxSize ==>
          m'.queue == m.queue + [msg] && m'.pushed == m.pushed + [msg] && !Waiting(m'.notFull, t))
    ensures CanWake(m.notFull, wakes) ==>
      var m' := Step(m, Pop(t, wakes));
      && (m.queue == [] ==> m'.queue == [] && m'.removed == m.removed && t in m'.notEmpty.asleep)
      && (m.queue != [] ==>
          && m.queue == [m.queue[0]] + m'.queue && m'.removed == m.removed + [m.queue[0]]
          && !Waiting(m'.notEmpty, t))
  {}

  /** The calls that never wait: tryPop takes the oldest message if there is one; clear and drain take all and wake
      every sleeping producer. */
  lemma CallsThatNeverWait(m: Monitor, wakes: Option<ThreadId>)
    ensures CanWake(m.notFull, wakes) ==>
      var m' := Step(m, TryPop(wakes));
      && m'.notEmpty == m.notEmpty
      && (m.queue == [] ==> m' == m)
      && (m.queue != [] ==> m.queue == [m.queue[0]] + m'.queue && m'.removed == m.removed + [m.queue[0]])
    ensures forall a :: a in {Clear, Drain} ==>
      var m' := Step(m, a);
      && m'.queue == [] && m'.removed == m.removed + m.queue && m'.pushed == m.pushed
      && m'.notFull.asleep == {} && m.notFull.asleep <= m'.notFull.woken
  {}

  /** A timed-out producer that finds the queue full gives up and pushes nothing, and so does a timed-out consumer
      that finds it empty; a thread woken too early goes back to sleep, its message kept. */
  lemma ExpiredGivesUp(maxSize: nat, actions: seq<Action>, t: ThreadId, wakes: Option<ThreadId>)
    ensures var m := Run(maxSize, actions); var m' := Step(m, ResumePush(t, wakes));
      t in m.notFull.woken + m.notFull.expired && |m.queue| == maxSize ==>
        && m'.queue == m.queue && m'.pushed == m.pushed && m'.removed == m.removed && m'.notEmpty == m.notEmpty
        && (if t in m.notFull.expired then !Waiting(m'.notFull, t)
            else t in m'.notFull.asleep && t !in m'.notFull.woken && m'.offers == m.offers)
    ensures var m := Run(maxSize, actions); var m' := Step(m, ResumePop(t, wakes));
      t in m.notEmpty.woken + m.notEmpty.expired && m.queue == [] ==>
        && m'.queue == [] && m'.pushed == m.pushed && m'.removed == m.removed && m'.notFull == m.notFull
        && (if t in m.notEmpty.expired then !Waiting(m'.notEmpty, t)
            else t in m'.notEmpty.asleep && t !in m'.notEmpty.woken)
  {
    RunKeeps(maxSize, actions);
    hide Run, Covered;
    var m := Run(maxSize, actions);
    CoveredIsDisjoint(m.notFull, m.maxSize - |m.queue|);
    CoveredIsDisjoint(m.notEmpty, |m.queue|);
    if t in m.notFull.woken { StillWaiting(m.notFull, t); }
    if t in m.notFull.expired { StillWaiting(m.notFull, t); }
  }

  /** What a waiting producer will push is the message of the call that it has been waiting in ever since. */
  lemma {:induction false} OfferIsItsCall(maxSize: nat, actions: seq<Action>, t: ThreadId) returns (k: nat)
    requires Waiting(Run(maxSize, actions).notFull, t)
    ensures k < |actions| && actions[k].Push? && actions[k].t == t
    ensures t in Run(maxSize, actions).offers && Run(maxSize, actions).offers[t] == actions[k].msg
    ensures !Waiting(Run(maxSize, actions[..k]).notFull, t)
    ensures forall j :: k < j <= |actions| ==> Waiting(Run(maxSize, actions[..j]).notFull, t)
    decreases |actions|
  {
    hide *;
    WaitingHasCalled(maxSize, actions, t);
    var n := |actions| - 1;
    var before := actions[..n];
    assert actions[..n + 1] == actions;
    if Waiting(Run(maxSize, before).notFull, t) {
      k := OfferIsItsCall(maxSize, before, t);
      assert before[..k] == actions[..k];
      forall j | k < j <= |actions| ensures Waiting(Run(maxSize, actions[..j]).notFull, t) {
        if j <= n { assert before[..j] == actions[..j]; }
      }
    } else {
      k := n;
    }
  }

  lemma WaitingHasCalled(maxSize: nat, actions: seq<Action>, t: ThreadId)
    requires Waiting(Run(maxSize, actions).notFull, t)
    ensures actions != []
    ensures var n := |actions| - 1; var m, m' := Run(maxSize, actions[..n]), Run(maxSize, actions);
      && t in m'.offers
      && (if Waiting(m.notFull, t) then t in m.offers && m'.offers[t] == m.offers[t]
          else actions[n].Push? && actions[n].t == t && m'.offers[t] == actions[n].msg)
  {
    if actions != [] {
      hide Step, Waiting;
      var n := |actions| - 1;
      RunKeeps(maxSize, actions[..n]);
      OfferStep(Run(maxSize, actions[..n]), actions[n], t);
    }
  }

  lemma OfferStep(m: Monitor, a: Action, t: ThreadId)
    requires Waiting(Step(m, a).notFull, t) && (Waiting(m.notFull, t) ==> t in m.offers)
    ensures if Waiting(m.notFull, t) then t in Step(m, a).offers && Step(m, a).offers[t] == m.offers[t]
            else a.Push? && a.t == t && t in Step(m, a).offers && Step(m, a).offers[t] == a.msg
  {
    hide Full;
  }

  /** A woken consumer that finds a message takes the oldest one. */
  lemma WokenConsumerPops(maxSize: nat, actions: seq<Action>, t: ThreadId, wakes: Option<ThreadId>)
    requires var m := Run(maxSize, actions);
      t in m.notEmpty.woken && m.queue != [] && CanWake(m.notFull, wakes)
    ensures var m := Run(maxSize, actions); var m' := Step(m, ResumePop(t, wakes));
      && m'.removed == m.removed + [m.queue[0]] && m.queue == [m.queue[0]] + m'.queue
      && !Waiting(m'.notEmpty, t)
  {
    RunKeeps(maxSize, actions);
  }

  /** A woken producer that finds a free slot pushes its message. */
  lemma WokenProducerPushes(maxSize: nat, actions: seq<Action>, t: ThreadId, wakes: Option<ThreadId>)
    requires var m := Run(maxSize, actions);
      t in m.notFull.woken && |m.queue| < maxSize && CanWake(m.notEmpty, wakes)
    ensures var m := Run(maxSize, actions); var m' := Step(m, ResumePush(t, wakes));
      t in m.offers && m'.queue == m.queue + [m.offers[t]] && !Waiting(m'.notFull, t)
  {
    RunKeeps(maxSize, actions);
    assert Waiting(Run(maxSize, actions).notFull, t);
  }
}

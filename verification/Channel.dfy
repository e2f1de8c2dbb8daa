/** Bounded channels: a 64-slot ring under a mutex, with one condition variable for receivers and
    one for senders. The critical sections are proved against a queue, and every interleaving of
    them is proved first-in first-out and free of lost wakeups. */
module Channel {
  const CAPACITY: nat := 64

  /** What a channel carries; the channel never looks inside. */
  type Message = int

  // ---- The ring ----

  datatype Ring = Ring(buffer: seq<Message>, head: nat, tail: nat, count: nat, closed: bool) {
    ghost predicate Valid() {
      && |buffer| == CAPACITY
      && head < CAPACITY && count <= CAPACITY
      && tail == Slot(head, count)
    }

    /** The buffered messages, oldest first. */
    ghost function Contents(): (c: seq<Message>)
      requires Valid()
      ensures |c| == count
    {
      seq(count, i requires 0 <= i < count => buffer[Slot(head, i)])
    }
  }

  /** The slot `i` places after the one at `start`. */
  function Slot(start: nat, i: nat): (slot: nat)
    ensures slot < CAPACITY
  {
    (start + i) % CAPACITY
  }

  lemma SlotIs(start: nat, i: nat, q: int, slot: nat)
    requires start + i == q * CAPACITY + slot && slot < CAPACITY
    ensures Slot(start, i) == slot
  {
  }

  lemma SlotAfter(start: nat, i: nat)
    ensures (Slot(start, i) + 1) % CAPACITY == Slot(start, i + 1)
  {
    var q, slot := (start + i) / CAPACITY, Slot(start, i);
    if slot + 1 == CAPACITY {
      SlotIs(start, i + 1, q + 1, 0);
    } else {
      SlotIs(start, i + 1, q, slot + 1);
    }
  }

  lemma SlotFromNext(start: nat, i: nat)
    ensures Slot((start + 1) % CAPACITY, i) == Slot(start, i + 1)
  {
    var q, next := (start + 1) / CAPACITY, (start + 1) % CAPACITY;
    assert start + 1 == q * CAPACITY + next;
    var q', slot := (next + i) / CAPACITY, (next + i) % CAPACITY;
    assert next + i == q' * CAPACITY + slot;
    SlotIs(next, i, q', slot);
    SlotIs(start, i + 1, q + q', slot);
  }

  lemma SlotsDiffer(start: nat, i: nat, j: nat)
    requires i < j < i + CAPACITY
    ensures Slot(start, i) != Slot(start, j)
  {
  }

  function Enqueued(r: Ring, m: Message): (r': Ring)
    requires r.Valid() && r.count < CAPACITY
    ensures r'.Valid()
    ensures r'.Contents() == r.Contents() + [m]
  {
    hide Slot;
    SlotAfter(r.head, r.count);
    assert forall i :: 0 <= i < r.count ==> Slot(r.head, i) != r.tail by {
      forall i | 0 <= i < r.count ensures Slot(r.head, i) != r.tail {
        SlotsDiffer(r.head, i, r.count);
      }
    }
    r.(buffer := r.buffer[r.tail := m], tail := (r.tail + 1) % CAPACITY, count := r.count + 1)
  }

  function Dequeued(r: Ring): (r': Ring)
    requires r.Valid() && r.count > 0
    ensures r'.Valid()
    ensures r.Contents() == [r.buffer[r.head]] + r'.Contents()
  {
    var start := (r.head + 1) % CAPACITY;
    hide Slot;
    SlotIs(r.head, 0, 0, r.head);
    assert forall i: nat :: Slot(start, i) == Slot(r.head, i + 1) by {
      forall i: nat ensures Slot(start, i) == Slot(r.head, i + 1) {
        SlotFromNext(r.head, i);
      }
    }
    r.(head := start, count := r.count - 1)
  }

  // ---- The critical sections, as functions of the ring ----

  datatype SendOutcome = Sent | SendWaits | SendRefused
  datatype RecvOutcome = Received(msg: Message) | RecvWaits | EndOfChannel

  /** What a send does with the ring it finds: it is refused, waits, or enqueues. */
  function SendOutcomeOf(r: Ring): SendOutcome {
    if r.closed then SendRefused else if r.count >= CAPACITY then SendWaits else Sent
  }

  function AfterSend(r: Ring, m: Message): Ring
    requires r.Valid()
  {
    if SendOutcomeOf(r).Sent? then Enqueued(r, m) else r
  }

  /** What a receive does with the ring it finds: it delivers the oldest message, waits if it may, or gives up. */
  function RecvOutcomeOf(r: Ring, mayWait: bool): (o: RecvOutcome)
    requires r.Valid()
    ensures r.count > 0 ==> o == Received(r.Contents()[0])
  {
    if r.count > 0 then Received(r.buffer[r.head])
    else if mayWait && !r.closed then RecvWaits
    else EndOfChannel
  }

  function AfterRecv(r: Ring, mayWait: bool): Ring
    requires r.Valid()
  {
    if RecvOutcomeOf(r, mayWait).Received? then Dequeued(r) else r
  }

  function Closed(r: Ring): Ring {
    r.(closed := true)
  }

  /** The channel object; every method is one critical section, from taking the mutex to giving
      it back, by returning or by waiting. */
  class ChannelObject {
    const buffer: array<Message>
    var head: nat
    var tail: nat
    var count: nat
    var closed: bool

    ghost function View(): Ring
      reads this, buffer
    {
      Ring(buffer[..], head, tail, count, closed)
    }

    constructor ()
      ensures fresh(buffer) && View().Valid() && View().Contents() == [] && !closed
    {
      buffer := new Message[CAPACITY](_ => 0);
      head, tail, count, closed := 0, 0, 0, false;
    }

    method SendSection(m: Message) returns (outcome: SendOutcome)
      requires View().Valid()
      modifies this`tail, this`count, buffer
      ensures outcome == SendOutcomeOf(old(View())) && View() == AfterSend(old(View()), m)
    {
      if count >= CAPACITY && !closed { return SendWaits; }
      if !closed {
        buffer[tail] := m;
        tail := (tail + 1) % CAPACITY;
        count := count + 1;
        return Sent;
      }
      return SendRefused;
    }

    /** `recv`, `recv_timeout` and `try_recv` share this section; `mayWait` is false for
        `try_recv` and once a timed wait has timed out. */
    method RecvSection(mayWait: bool) returns (outcome: RecvOutcome)
      requires View().Valid()
      modifies this`head, this`count
      ensures outcome == RecvOutcomeOf(old(View()), mayWait) && View() == AfterRecv(old(View()), mayWait)
    {
      if mayWait && count == 0 && !closed { return RecvWaits; }
      if count > 0 {
        var m := buffer[head];
        head := (head + 1) % CAPACITY;
        count := count - 1;
        return Received(m);
      }
      return EndOfChannel;
    }

    method CloseSection()
      modifies this`closed
      ensures View() == Closed(old(View()))
    {
      closed := true;
    }
  }

  // ---- Threads and interleavings ----

  /** Where a thread is: outside the channel, asleep on a condition variable inside a send or a
      receive, or awake again (signalled, spuriously, or by its deadline) and yet to retake the mutex. */
  datatype Thread =
    | Outside
    | SleepingSender(msg: Message)
    | AwakeSender(msg: Message)
    | SleepingReceiver(timed: bool)
    | AwakeReceiver(timed: bool)

  /** A channel with its threads, and the history of accepted and delivered messages. */
  datatype System = System(ring: Ring, threads: map<int, Thread>, sent: seq<Message>, received: seq<Message>)

  type Threads = map<int, Thread>

  function SleepingSenders(ts: Threads): set<int> { set t | t in ts && ts[t].SleepingSender? }
  function AwakeSenders(ts: Threads): set<int> { set t | t in ts && ts[t].AwakeSender? }
  function SleepingReceivers(ts: Threads): set<int> { set t | t in ts && ts[t].SleepingReceiver? }
  function AwakeReceivers(ts: Threads): set<int> { set t | t in ts && ts[t].AwakeReceiver? }

  function Awakened(t: Thread): Thread {
    match t
    case SleepingSender(m) => AwakeSender(m)
    case SleepingReceiver(timed) => AwakeReceiver(timed)
    case _ => t
  }

  function Wake(ts: Threads, woken: set<int>): Threads {
    map t | t in ts :: if t in woken then Awakened(ts[t]) else ts[t]
  }

  /** `pthread_cond_signal` wakes at least one of the sleepers, if there are any. */
  predicate Signals(sleepers: set<int>, woken: set<int>) {
    woken <= sleepers && (sleepers != {} ==> woken != {})
  }

  datatype Event =
    | Send(msg: Message)         // a thread outside calls send
    | ResumeSend                 // an awake sender retakes the mutex and checks again
    | Recv(timed: bool)          // a thread outside calls recv or recv_timeout
    | ResumeRecv(expired: bool)  // an awake receiver retakes the mutex; its deadline may have passed
    | TryRecv                    // a thread outside calls try_recv
    | StopWaiting                // a sleeper wakes with no signal: spuriously or by its deadline
    | Close                      // close_channel, or the close pass of the exit drain

  /** The section of send, run by thread `t`. */
  predicate SendStep(s: System, t: int, m: Message, woken: set<int>, s': System)
    requires s.ring.Valid()
  {
    && s'.ring == AfterSend(s.ring, m) && s'.received == s.received
    && match SendOutcomeOf(s.ring)
       case SendRefused => s'.threads == s.threads[t := Outside] && s'.sent == s.sent
       case SendWaits => s'.threads == s.threads[t := SleepingSender(m)] && s'.sent == s.sent
       case Sent =>
         && Signals(SleepingReceivers(s.threads), woken)
         && s'.threads == Wake(s.threads, woken)[t := Outside] && s'.sent == s.sent + [m]
  }

  /** The section of the receives, run by thread `t`, which waits as `timed` says if it may wait. */
  predicate RecvStep(s: System, t: int, mayWait: bool, timed: bool, woken: set<int>, s': System)
    requires s.ring.Valid()
  {
    && s'.ring == AfterRecv(s.ring, mayWait) && s'.sent == s.sent
    && match RecvOutcomeOf(s.ring, mayWait)
       case Received(m) =>
         && Signals(SleepingSenders(s.threads), woken)
         && s'.threads == Wake(s.threads, woken)[t := Outside] && s'.received == s.received + [m]
       case RecvWaits => s'.threads == s.threads[t := SleepingReceiver(timed)] && s'.received == s.received
       case EndOfChannel => s'.threads == s.threads[t := Outside] && s'.received == s.received
  }

  /** Thread `t` takes part in event `e`; `woken` are the threads its signal wakes. On an unsound ring, whose indices
      may lie outside its buffer, anything could happen. */
  ghost predicate Step(s: System, t: int, e: Event, woken: set<int>, s': System) {
    && t in s.threads
    && (s.ring.Valid() ==>
        match e
        case Send(m) => s.threads[t].Outside? && SendStep(s, t, m, woken, s')
        case ResumeSend => s.threads[t].AwakeSender? && SendStep(s, t, s.threads[t].msg, woken, s')
        case Recv(timed) => s.threads[t].Outside? && RecvStep(s, t, true, timed, woken, s')
        case ResumeRecv(expired) =>
          && s.threads[t].AwakeReceiver? && (expired ==> s.threads[t].timed)
          && RecvStep(s, t, !expired, s.threads[t].timed, woken, s')
        case TryRecv => s.threads[t].Outside? && RecvStep(s, t, false, false, woken, s')
        case StopWaiting =>
          && (s.threads[t].SleepingSender? || s.threads[t].SleepingReceiver?)
          && s' == s.(threads := s.threads[t := Awakened(s.threads[t])])
        case Close =>
          s.threads[t].Outside? && s' == s.(ring := Closed(s.ring), threads := Wake(s.threads, s.threads.Keys)))
  }

  ghost predicate Initial(s: System) {
    && s.ring.Valid() && s.ring.count == 0 && !s.ring.closed
    && s.sent == [] && s.received == []
    && forall t :: t in s.threads ==> s.threads[t].Outside?
  }

  // ---- The invariants ----

  /** First in, first out, with nothing lost and nothing made up. */
  ghost predicate Fifo(s: System) {
    s.ring.Valid() && s.sent == s.received + s.ring.Contents()
  }

  /** How many threads are asleep and awake inside a receive and inside a send. */
  datatype Census = Census(sleepingReceivers: int, awakeReceivers: int, sleepingSenders: int, awakeSenders: int)

  ghost function CensusOf(ts: Threads): (c: Census)
    ensures c.sleepingReceivers >= 0 && c.awakeReceivers >= 0 && c.sleepingSenders >= 0 && c.awakeSenders >= 0
  {
    Census(|SleepingReceivers(ts)|, |AwakeReceivers(ts)|, |SleepingSenders(ts)|, |AwakeSenders(ts)|)
  }

  /** While the channel is open, every buffered message has an awake receiver on its way to it if
      any receiver still sleeps, and every free slot an awake sender if any sender still sleeps.
      Once it is closed nobody sleeps. */
  ghost predicate NoLostWakeup(s: System) {
    var c := CensusOf(s.threads);
    && (!s.ring.closed && c.sleepingReceivers > 0 ==> s.ring.count <= c.awakeReceivers)
    && (!s.ring.closed && c.sleepingSenders > 0 ==> CAPACITY - s.ring.count <= c.awakeSenders)
    && (s.ring.closed ==> c.sleepingReceivers == 0 && c.sleepingSenders == 0)
  }

  ghost predicate Inv(s: System) {
    Fifo(s) && NoLostWakeup(s)
  }

  lemma StepKeepsFifo(s: System, t: int, e: Event, woken: set<int>, s': System)
    requires Fifo(s) && Step(s, t, e, woken, s')
    ensures Fifo(s')
  {
    hide Enqueued, Dequeued, Wake;
    var r, r' := s.ring, s'.ring;
    if s'.received != s.received {
      assert s.sent == s.received + ([r.buffer[r.head]] + r'.Contents());
    } else if s'.sent != s.sent {
      assert s'.sent == s.received + (r.Contents() + [s'.sent[|s.sent|]]);
    } else {
      assert r'.Contents() == r.Contents();
    }
  }

  lemma MoveOne(before: set<int>, after: set<int>, t: int)
    requires forall u :: u in before && u != t ==> u in after
    requires forall u :: u in after && u != t ==> u in before
    ensures |after| == |before| + One(t in after) - One(t in before)
  {
    var b, a := before - {t}, after - {t};
    assert forall u :: u in b <==> u in a;
    assert a == b;
    if t in before { assert before == b + {t}; } else { assert before == b; }
    if t in after { assert after == a + {t}; } else { assert after == a; }
  }

  lemma MoveAll(from: set<int>, to: set<int>, moved: set<int>)
    requires moved <= from && to !! moved
    ensures |from - moved| == |from| - |moved|
    ensures |to + moved| == |to| + |moved|
  {
  }

  /** A thread that only changes its own place. */
  lemma MoveCensus(ts: Threads, t: int, to: Thread)
    requires t in ts
    ensures var c, c', from := CensusOf(ts), CensusOf(ts[t := to]), ts[t];
      && c'.sleepingReceivers == c.sleepingReceivers + One(to.SleepingReceiver?) - One(from.SleepingReceiver?)
      && c'.sleepingSenders == c.sleepingSenders + One(to.SleepingSender?) - One(from.SleepingSender?)
      && c'.awakeReceivers == c.awakeReceivers + One(to.AwakeReceiver?) - One(from.AwakeReceiver?)
      && c'.awakeSenders == c.awakeSenders + One(to.AwakeSender?) - One(from.AwakeSender?)
  {
    var ts' := ts[t := to];
    MoveOne(SleepingReceivers(ts), SleepingReceivers(ts'), t);
    MoveOne(SleepingSenders(ts), SleepingSenders(ts'), t);
    MoveOne(AwakeReceivers(ts), AwakeReceivers(ts'), t);
    MoveOne(AwakeSenders(ts), AwakeSenders(ts'), t);
  }

  lemma WakeReceivers(ts: Threads, woken: set<int>)
    requires woken <= SleepingReceivers(ts)
    ensures var c := CensusOf(ts);
      CensusOf(Wake(ts, woken))
      == c.(sleepingReceivers := c.sleepingReceivers - |woken|, awakeReceivers := c.awakeReceivers + |woken|)
  {
    var ts' := Wake(ts, woken);
    assert forall u :: u in ts ==> ts'[u] == if u in woken then AwakeReceiver(ts[u].timed) else ts[u];
    assert SleepingReceivers(ts') == SleepingReceivers(ts) - woken;
    assert AwakeReceivers(ts') == AwakeReceivers(ts) + woken;
    assert SleepingSenders(ts') == SleepingSenders(ts);
    assert AwakeSenders(ts') == AwakeSenders(ts);
    MoveAll(SleepingReceivers(ts), AwakeReceivers(ts), woken);
  }

  lemma WakeSenders(ts: Threads, woken: set<int>)
    requires woken <= SleepingSenders(ts)
    ensures var c := CensusOf(ts);
      CensusOf(Wake(ts, woken))
      == c.(sleepingSenders := c.sleepingSenders - |woken|, awakeSenders := c.awakeSenders + |woken|)
  {
    var ts' := Wake(ts, woken);
    assert forall u :: u in ts ==> ts'[u] == if u in woken then AwakeSender(ts[u].msg) else ts[u];
    assert SleepingSenders(ts') == SleepingSenders(ts) - woken;
    assert AwakeSenders(ts') == AwakeSenders(ts) + woken;
    assert SleepingReceivers(ts') == SleepingReceivers(ts);
    assert AwakeReceivers(ts') == AwakeReceivers(ts);
    MoveAll(SleepingSenders(ts), AwakeSenders(ts), woken);
  }

  lemma WakeLeaves(ts: Threads, woken: set<int>, t: int)
    requires woken <= SleepingReceivers(ts) || woken <= SleepingSenders(ts)
    requires t in ts && !ts[t].SleepingSender? && !ts[t].SleepingReceiver?
    ensures t in Wake(ts, woken) && Wake(ts, woken)[t] == ts[t]
  {
  }

  function One(b: bool): nat {
    if b then 1 else 0
  }

  lemma SendKeepsWakeups(s: System, t: int, m: Message, woken: set<int>, s': System)
    requires s.ring.Valid() && NoLostWakeup(s) && t in s.threads
    requires s.threads[t].Outside? || s.threads[t].AwakeSender?
    requires SendStep(s, t, m, woken, s')
    ensures NoLostWakeup(s')
  {
    hide Wake, CensusOf;
    if s.ring.closed {
      MoveCensus(s.threads, t, Outside);
    } else if s.ring.count >= CAPACITY {
      MoveCensus(s.threads, t, SleepingSender(m));
    } else {
      WakeReceivers(s.threads, woken);
      WakeLeaves(s.threads, woken, t);
      MoveCensus(Wake(s.threads, woken), t, Outside);
      SignalWakesOne(s.threads, woken);
    }
  }

  lemma RecvKeepsWakeups(s: System, t: int, mayWait: bool, timed: bool, woken: set<int>, s': System)
    requires s.ring.Valid() && NoLostWakeup(s) && t in s.threads
    requires s.threads[t].Outside? || s.threads[t].AwakeReceiver?
    requires RecvStep(s, t, mayWait, timed, woken, s')
    ensures NoLostWakeup(s')
  {
    hide Wake, CensusOf;
    if s.ring.count > 0 {
      WakeSenders(s.threads, woken);
      WakeLeaves(s.threads, woken, t);
      MoveCensus(Wake(s.threads, woken), t, Outside);
      SignalWakesOne(s.threads, woken);
    } else if mayWait && !s.ring.closed {
      MoveCensus(s.threads, t, SleepingReceiver(timed));
    } else {
      MoveCensus(s.threads, t, Outside);
    }
  }

  lemma SignalWakesOne(ts: Threads, woken: set<int>)
    ensures Signals(SleepingReceivers(ts), woken) && CensusOf(ts).sleepingReceivers > 0 ==> |woken| >= 1
    ensures Signals(SleepingSenders(ts), woken) && CensusOf(ts).sleepingSenders > 0 ==> |woken| >= 1
  {
    assert woken != {} ==> |woken| >= 1;
  }

  /** Every step, of any thread, keeps both invariants. */
  lemma StepKeepsInv(s: System, t: int, e: Event, woken: set<int>, s': System)
    requires Inv(s) && Step(s, t, e, woken, s')
    ensures Inv(s')
  {
    hide SendStep, RecvStep, NoLostWakeup;
    StepKeepsFifo(s, t, e, woken, s');
    match e {
      case Send(m) => SendKeepsWakeups(s, t, m, woken, s');
      case ResumeSend => SendKeepsWakeups(s, t, s.threads[t].msg, woken, s');
      case Recv(timed) => RecvKeepsWakeups(s, t, true, timed, woken, s');
      case ResumeRecv(expired) => RecvKeepsWakeups(s, t, !expired, s.threads[t].timed, woken, s');
      case TryRecv => RecvKeepsWakeups(s, t, false, false, woken, s');
      case StopWaiting => StopWaitingKeepsWakeups(s, t);
      case Close => CloseWakesAll(s);
    }
  }

  lemma StopWaitingKeepsWakeups(s: System, t: int)
    requires NoLostWakeup(s) && t in s.threads
    requires s.threads[t].SleepingSender? || s.threads[t].SleepingReceiver?
    ensures NoLostWakeup(s.(threads := s.threads[t := Awakened(s.threads[t])]))
  {
    MoveCensus(s.threads, t, Awakened(s.threads[t]));
  }

  lemma CloseWakesAll(s: System)
    ensures NoLostWakeup(s.(ring := s.ring.(closed := true), threads := Wake(s.threads, s.threads.Keys)))
  {
    var ts' := Wake(s.threads, s.threads.Keys);
    assert forall t :: t in ts' ==> ts'[t] == Awakened(s.threads[t]);
    assert forall t :: t !in SleepingReceivers(ts') && t !in SleepingSenders(ts');
  }

  // ---- Whole executions ----

  datatype Action = Action(thread: int, event: Event, woken: set<int>)

  ghost predicate Execution(states: seq<System>, actions: seq<Action>) {
    && |states| == |actions| + 1
    && Initial(states[0])
    && forall i :: 0 <= i < |actions| ==>
      Step(states[i], actions[i].thread, actions[i].event, actions[i].woken, states[i + 1])
  }

  lemma InitialInv(s: System)
    requires Initial(s)
    ensures Inv(s)
  {
    assert forall t :: t !in SleepingReceivers(s.threads) && t !in SleepingSenders(s.threads);
  }

  /** In every state of every interleaving the accepted messages are exactly the delivered ones
      followed by the buffered ones, in order, and no wakeup is lost. */
  lemma {:induction false} EveryStateKeepsInv(states: seq<System>, actions: seq<Action>, i: nat)
    requires Execution(states, actions) && i < |states|
    ensures Inv(states[i])
  {
    hide Step, Initial, Inv;
    if i == 0 {
      InitialInv(states[0]);
    } else {
      EveryStateKeepsInv(states, actions, i - 1);
      var a := actions[i - 1];
      StepKeepsInv(states[i - 1], a.thread, a.event, a.woken, states[i]);
    }
  }

  /** Nothing is accepted once the channel is closed, and it stays closed. */
  lemma {:induction false} NothingSentAfterClose(states: seq<System>, actions: seq<Action>, i: nat, j: nat)
    requires Execution(states, actions) && i <= j < |states| && states[i].ring.closed
    ensures states[j].ring.closed && states[j].sent == states[i].sent
    ensures states[i].received <= states[j].received <= states[i].sent
  {
    EveryStateKeepsInv(states, actions, j);
    if i < j {
      NothingSentAfterClose(states, actions, i, j - 1);
      EveryStateKeepsInv(states, actions, j - 1);
      var a := actions[j - 1];
      assert Step(states[j - 1], a.thread, a.event, a.woken, states[j]);
    }
  }

  /** On a closed channel a receive of any kind returns at once: with the oldest buffered message
      while there is one, and with the end of the channel after that. */
  lemma ReceiveAfterClose(s: System, t: int, e: Event, woken: set<int>, s': System)
    requires Inv(s) && Step(s, t, e, woken, s') && s.ring.closed
    requires e.Recv? || e.ResumeRecv? || e.TryRecv?
    ensures s'.threads[t].Outside?
    ensures s'.received == s.received + s.ring.Contents()[..if s.ring.count > 0 then 1 else 0]
    ensures s'.ring.Contents() == s.ring.Contents()[if s.ring.count > 0 then 1 else 0..]
  {
    hide Dequeued, NoLostWakeup, Wake;
    if s.ring.count > 0 {
      var m, rest := s.ring.buffer[s.ring.head], s'.ring.Contents();
      assert s.ring.Contents() == [m] + rest;
      assert ([m] + rest)[..1] == [m] && ([m] + rest)[1..] == rest;
    }
  }

  /** When no awake thread is on its way back into the channel, every sleeper sleeps for a reason
      that still holds: receivers only on an empty open channel, senders only on a full open one,
      and never both kinds at once. */
  lemma SleepersHaveReason(states: seq<System>, actions: seq<Action>, i: nat)
    requires Execution(states, actions) && i < |states|
    requires forall t :: t in states[i].threads ==>
      !states[i].threads[t].AwakeSender? && !states[i].threads[t].AwakeReceiver?
    ensures var s := states[i];
      && (forall t :: t in s.threads && s.threads[t].SleepingReceiver? ==> s.ring.count == 0 && !s.ring.closed)
      && (forall t :: t in s.threads && s.threads[t].SleepingSender? ==> s.ring.count == CAPACITY && !s.ring.closed)
  {
    EveryStateKeepsInv(states, actions, i);
    var ts := states[i].threads;
    assert forall t :: t !in AwakeReceivers(ts) && t !in AwakeSenders(ts);
    forall t | t in ts
      ensures ts[t].SleepingReceiver? ==> CensusOf(ts).sleepingReceivers > 0
      ensures ts[t].SleepingSender? ==> CensusOf(ts).sleepingSenders > 0
    {
      assert ts[t].SleepingReceiver? ==> t in SleepingReceivers(ts) && SleepingReceivers(ts) != {};
      assert ts[t].SleepingSender? ==> t in SleepingSenders(ts) && SleepingSenders(ts) != {};
    }
  }
}

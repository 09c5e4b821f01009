/**
  One market's worker and its subscribers (gateway/orderbook/src/market.rs): every step below is one
  critical section or one atomic operation of the original, and steps of the single worker and of any
  number of subscribers interleave freely.
*/
module FanOut {
  import opened Base
  import opened OrderBook
  import opened BookSession

  datatype Message =
    | Status(status: string)
    | SnapshotMessage(seqNo: nat, sourceTs: nat, depth: DepthView)
    | UpdateMessage(seqNo: nat, sourceTs: nat, minTs: nat, maxTs: nat, depth: DepthView)

  /** Where the worker stands between its critical sections. */
  datatype Worker =
    | Idle
    | Loaded
    | Changed(sourceTs: nat, minTs: nat, maxTs: nat, depth: DepthView)
    | Ready(message: Message)

  /** What a subscriber got from its own snapshot request. */
  datatype FirstRead = Unread | NothingYet | Got(message: Message)

  datatype Subscriber = Subscriber(first: FirstRead, queue: seq<Message>, open: bool)

  /**
    `books` is the history of the book, the current one last, and `stamps` remembers for every sequence
    number how many changes the book had seen when it was taken; both exist for the proofs only.
  */
  datatype State = State(
    depth: nat,
    books: seq<Book>,
    stamps: map<nat, nat>,
    nextSeq: nat,
    worker: Worker,
    nextId: nat,
    subscribers: map<nat, Subscriber>)
  {
    function Current(): Book {
      if books == [] then EMPTY else books[|books| - 1]
    }

    function Changes(): int {
      |books| - 1
    }

    function View(): DepthView {
      Depth(Current(), depth)
    }

    function TakeSeq(): State {
      this.(nextSeq := nextSeq + 1, stamps := stamps[nextSeq := if |books| == 0 then 0 else |books| - 1])
    }
  }

  function Start(depth: nat): State {
    State(depth, [EMPTY], map[], 1, Idle, 1, map[])
  }

  datatype Step =
    | LoadSnapshot(snapshot: Snapshot)
    | NumberSnapshot
    | Apply(delta: BookDelta)
    | NumberUpdate
    | EmitReady
    | EmitStatus(status: string)
    | Register
    | ReadSnapshot(id: nat)
    | HangUp(id: nat)
    | Unsubscribe(id: nat)

  function IsEmpty(b: Book): bool {
    b.bids == map[] && b.asks == map[]
  }

  function Delivered(sub: Subscriber, m: Message): Subscriber {
    sub.(queue := sub.queue + [m])
  }

  /** Delivery to every open channel; closed ones are forgotten. */
  function EmitTo(subscribers: map<nat, Subscriber>, m: Message): map<nat, Subscriber> {
    map id | id in subscribers && subscribers[id].open :: Delivered(subscribers[id], m)
  }

  /** One step; a step that is not possible in a state leaves it alone. */
  function Next(s: State, step: Step): State {
    match step
    case LoadSnapshot(snap) =>
      if s.worker != Idle then s
      else s.(books := s.books + [FromSnapshot(snap.bids, snap.asks, snap.ts)], worker := Loaded)
    case NumberSnapshot =>
      if s.worker != Loaded then s
      else s.TakeSeq().(worker := Ready(SnapshotMessage(s.nextSeq, s.Current().lastTs, s.View())))
    case Apply(d) =>
      if s.worker != Idle || Outcome(s.Current(), d) != Applied then s
      else
        var b := AfterDelta(s.Current(), d);
        s.(books := s.books + [b], worker := Changed(b.lastTs, d.minTs, d.maxTs, Depth(b, s.depth)))
    case NumberUpdate =>
      (match s.worker
       case Changed(ts, lo, hi, depth) => s.TakeSeq().(worker := Ready(UpdateMessage(s.nextSeq, ts, lo, hi, depth)))
       case _ => s)
    case EmitReady =>
      (match s.worker
       case Ready(m) => s.(worker := Idle, subscribers := EmitTo(s.subscribers, m))
       case _ => s)
    case EmitStatus(status) =>
      if s.worker != Idle then s else s.(subscribers := EmitTo(s.subscribers, Status(status)))
    case Register =>
      s.(nextId := s.nextId + 1, subscribers := s.subscribers[s.nextId := Subscriber(Unread, [], true)])
    case ReadSnapshot(id) =>
      if id !in s.subscribers || s.subscribers[id].first != Unread then s
      else if IsEmpty(s.Current()) then
        s.(subscribers := s.subscribers[id := s.subscribers[id].(first := NothingYet)])
      else
        var m := SnapshotMessage(s.nextSeq, s.Current().lastTs, s.View());
        s.TakeSeq().(subscribers := s.subscribers[id := s.subscribers[id].(first := Got(m))])
    case HangUp(id) =>
      if id !in s.subscribers then s
      else s.(subscribers := s.subscribers[id := s.subscribers[id].(open := false)])
    case Unsubscribe(id) =>
      s.(subscribers := s.subscribers - {id})
  }

  function Run(s: State, steps: seq<Step>): State {
    if steps == [] then s else Next(Run(s, steps[..|steps| - 1]), steps[|steps| - 1])
  }

  // ---- what a subscriber sees ----

  /** Its own snapshot first, then its queue. */
  function Stream(sub: Subscriber): seq<Message> {
    (if sub.first.Got? then [sub.first.message] else []) + sub.queue
  }

  function LastDepth(stream: seq<Message>): Option<Message> {
    if stream == [] then None
    else if stream[|stream| - 1].Status? then LastDepth(stream[..|stream| - 1])
    else Some(stream[|stream| - 1])
  }

  /** A depth message shows the book as it was after the number of changes its sequence number is stamped with. */
  ghost predicate Faithful(s: State, m: Message) {
    m.Status? ||
    (&& m.seqNo in s.stamps
     && 0 <= s.stamps[m.seqNo] < |s.books|
     && m.depth == Depth(s.books[s.stamps[m.seqNo]], s.depth)
     && m.sourceTs == s.books[s.stamps[m.seqNo]].lastTs)
  }

  ghost predicate StampsRise(s: State) {
    && (forall a :: a in s.stamps ==> a < s.nextSeq && s.stamps[a] < |s.books|)
    && (forall a, b :: a in s.stamps && b in s.stamps && a <= b ==> s.stamps[a] <= s.stamps[b])
  }

  ghost predicate UpToDate(s: State, m: Message) {
    !m.Status? && m.seqNo in s.stamps && s.stamps[m.seqNo] == s.Changes()
  }

  ghost predicate SubscriberSound(s: State, sub: Subscriber) {
    && (forall i :: 0 <= i < |sub.queue| ==> Faithful(s, sub.queue[i]))
    && (sub.first.Got? ==> !sub.first.message.Status? && Faithful(s, sub.first.message))
    && (s.worker == Idle && LastDepth(sub.queue).Some? ==> UpToDate(s, LastDepth(sub.queue).value))
    && (s.worker == Idle && LastDepth(sub.queue).None? && sub.first.Got? ==> UpToDate(s, sub.first.message))
    && (s.worker == Idle && LastDepth(sub.queue).None? && sub.first.NothingYet? ==> IsEmpty(s.Current()))
  }

  ghost predicate WorkerSound(s: State) {
    match s.worker
    case Changed(ts, _, _, depth) => depth == s.View() && ts == s.Current().lastTs
    case Ready(m) => Faithful(s, m) && UpToDate(s, m)
    case _ => true
  }

  ghost predicate Inv(s: State) {
    && |s.books| > 0
    && StampsRise(s)
    && WorkerSound(s)
    && (forall id :: id in s.subscribers ==> id < s.nextId && SubscriberSound(s, s.subscribers[id]))
  }

  /** Later states keep what earlier messages meant. */
  lemma FaithfulStays(s: State, s': State, m: Message)
    requires Faithful(s, m) && s.depth == s'.depth && s.books <= s'.books
    requires forall a :: a in s.stamps ==> a in s'.stamps && s'.stamps[a] == s.stamps[a]
    ensures Faithful(s', m)
  {
  }

  lemma LastDepthGrows(queue: seq<Message>, m: Message)
    ensures LastDepth(queue + [m]) == if m.Status? then LastDepth(queue) else Some(m)
  {
    assert (queue + [m])[..|queue|] == queue;
  }

  lemma DeliveryKeepsSound(s: State, s': State, sub: Subscriber, m: Message)
    requires SubscriberSound(s, sub) && Faithful(s, m)
    requires s'.depth == s.depth && s'.books == s.books && s'.stamps == s.stamps && s'.worker == Idle
    requires if m.Status? then s.worker == Idle else UpToDate(s, m)
    ensures SubscriberSound(s', Delivered(sub, m))
  {
    hide Faithful, Depth, LastDepth;
    LastDepthGrows(sub.queue, m);
    assert s'.Current() == s.Current();
    FaithfulStays(s, s', m);
    if sub.first.Got? {
      FaithfulStays(s, s', sub.first.message);
    }
    forall i | 0 <= i < |sub.queue| ensures Faithful(s', (sub.queue + [m])[i]) {
      FaithfulStays(s, s', sub.queue[i]);
    }
  }

  /** Steps that only extend the history, and do not finish a change, keep every subscriber sound. */
  ghost predicate Extends(s: State, s': State) {
    && s'.depth == s.depth && s.books <= s'.books
    && (forall a :: a in s.stamps ==> a in s'.stamps && s'.stamps[a] == s.stamps[a])
    && (s'.worker == Idle ==> s.worker == Idle && s'.books == s.books)
  }

  lemma SubscriberStays(s: State, s': State, sub: Subscriber)
    requires SubscriberSound(s, sub) && Extends(s, s') && s.books != []
    ensures SubscriberSound(s', sub)
  {
    hide Depth;
    forall i | 0 <= i < |sub.queue| ensures Faithful(s', sub.queue[i]) {
      FaithfulStays(s, s', sub.queue[i]);
    }
    if sub.first.Got? {
      FaithfulStays(s, s', sub.first.message);
    }
    LastDepthInQueue(sub.queue);
  }

  lemma {:induction false} LastDepthInQueue(queue: seq<Message>)
    ensures LastDepth(queue).Some? ==> LastDepth(queue).value in queue && !LastDepth(queue).value.Status?
  {
    if queue != [] && queue[|queue| - 1].Status? {
      LastDepthInQueue(queue[..|queue| - 1]);
    }
  }

  lemma SubscribersStay(s: State, s': State)
    requires Inv(s) && Extends(s, s')
    ensures forall id :: id in s.subscribers ==> SubscriberSound(s', s.subscribers[id])
  {
    forall id | id in s.subscribers ensures SubscriberSound(s', s.subscribers[id]) {
      SubscriberStays(s, s', s.subscribers[id]);
    }
  }

  lemma ChangeKeepsInv(s: State, s': State, b: Book)
    requires Inv(s) && s.worker == Idle
    requires s' == s.(books := s.books + [b], worker := s'.worker)
    requires s'.worker == Loaded
          || (s'.worker.Changed? && s'.worker.depth == Depth(b, s.depth) && s'.worker.sourceTs == b.lastTs)
    ensures Inv(s')
  {
    hide Depth;
    SubscribersStay(s, s');
  }

  lemma NumberKeepsInv(s: State, s': State, m: Message)
    requires Inv(s) && (s.worker == Loaded || s.worker.Changed?)
    requires !m.Status? && m.seqNo == s.nextSeq && m.depth == s.View() && m.sourceTs == s.Current().lastTs
    requires s' == s.TakeSeq().(worker := Ready(m))
    ensures Inv(s')
  {
    hide Depth;
    SubscribersStay(s, s');
  }

  lemma ReadKeepsInv(s: State, id: nat)
    requires Inv(s)
    ensures Inv(Next(s, ReadSnapshot(id)))
  {
    var s' := Next(s, ReadSnapshot(id));
    hide Depth, SubscriberSound, WorkerSound, StampsRise;
    if id in s.subscribers && s.subscribers[id].first == Unread {
      TakeSeqRises(s, s');
      SubscribersStay(s, s');
      WorkerStays(s, s');
      ReaderSound(s, s', s.subscribers[id]);
    }
  }

  lemma WorkerStays(s: State, s': State)
    requires WorkerSound(s) && Extends(s, s') && s'.books == s.books && s'.worker == s.worker
    ensures WorkerSound(s')
  {
    hide Depth;
  }

  lemma TakeSeqRises(s: State, s': State)
    requires StampsRise(s) && s.books != [] && s'.books == s.books
    requires (s'.nextSeq, s'.stamps) == (s.nextSeq, s.stamps)
          || (s'.nextSeq, s'.stamps) == (s.TakeSeq().nextSeq, s.TakeSeq().stamps)
    ensures StampsRise(s')
    ensures forall a :: a in s.stamps ==> a in s'.stamps && s'.stamps[a] == s.stamps[a]
  {
  }

  lemma ReaderSound(s: State, s': State, sub: Subscriber)
    requires SubscriberSound(s, sub) && s.books != [] && Extends(s, s') && s'.books == s.books && s'.worker == s.worker
    ensures IsEmpty(s.Current()) ==> SubscriberSound(s', sub.(first := NothingYet))
    ensures s'.stamps == s.TakeSeq().stamps
        ==> SubscriberSound(s', sub.(first := Got(SnapshotMessage(s.nextSeq, s.Current().lastTs, s.View()))))
  {
    hide Depth;
    SubscriberStays(s, s', sub);
  }

  lemma RegisterKeepsInv(s: State, step: Step)
    requires Inv(s) && (step.Register? || step.HangUp? || step.Unsubscribe?)
    ensures Inv(Next(s, step))
  {
    hide Depth;
    SubscribersStay(s, Next(s, step));
  }

  /** Every step keeps the invariant, whatever is interleaved with it. */
  lemma NextKeepsInv(s: State, step: Step)
    requires Inv(s)
    ensures Inv(Next(s, step))
  {
    hide Depth, EmitTo, FromSnapshot, AfterDelta, Inv;
    match step
    case LoadSnapshot(snap) =>
      if s.worker == Idle {
        ChangeKeepsInv(s, Next(s, step), FromSnapshot(snap.bids, snap.asks, snap.ts));
      }
    case Apply(d) =>
      if s.worker == Idle && Outcome(s.Current(), d) == Applied {
        ChangeKeepsInv(s, Next(s, step), AfterDelta(s.Current(), d));
      }
    case NumberSnapshot =>
      if s.worker == Loaded {
        NumberKeepsInv(s, Next(s, step), Next(s, step).worker.message);
      }
    case NumberUpdate =>
      if s.worker.Changed? {
        WorkerHoldsView(s);
        NumberKeepsInv(s, Next(s, step), Next(s, step).worker.message);
      }
    case EmitReady =>
      if s.worker.Ready? {
        WorkerHoldsView(s);
        EmitKeepsInv(s, Next(s, step), s.worker.message);
      }
    case EmitStatus(status) =>
      if s.worker == Idle {
        EmitKeepsInv(s, Next(s, step), Status(status));
      }
    case ReadSnapshot(id) => ReadKeepsInv(s, id);
    case _ => RegisterKeepsInv(s, step);
  }

  lemma WorkerHoldsView(s: State)
    requires Inv(s)
    ensures WorkerSound(s)
  {
  }

  lemma EmitKeepsInv(s: State, s': State, m: Message)
    requires Inv(s) && Faithful(s, m) && (if m.Status? then s.worker == Idle else UpToDate(s, m))
    requires s' == s.(worker := Idle, subscribers := EmitTo(s.subscribers, m))
    ensures Inv(s')
  {
    forall id | id in s'.subscribers ensures id < s'.nextId && SubscriberSound(s', s'.subscribers[id]) {
      DeliveryKeepsSound(s, s', s.subscribers[id], m);
    }
  }

  lemma {:induction false} RunKeepsInv(depth: nat, steps: seq<Step>)
    ensures Inv(Run(Start(depth), steps))
  {
    if steps == [] {
    } else {
      RunKeepsInv(depth, steps[..|steps| - 1]);
      NextKeepsInv(Run(Start(depth), steps[..|steps| - 1]), steps[|steps| - 1]);
    }
  }

  // ---- the guarantees ----

  /** A depth message of the stream of a registered subscriber. */
  ghost predicate Sees(s: State, id: nat, m: Message) {
    id in s.subscribers && m in Stream(s.subscribers[id]) && !m.Status?
  }

  /**
    In every reachable state, ordering any depth messages that any subscribers hold by sequence number
    orders them by the number of book changes they show, and each shows exactly that book.
  */
  lemma SequenceNumbersFollowChanges(depth: nat, steps: seq<Step>, id: nat, m: Message, id': nat, m': Message)
    requires Sees(Run(Start(depth), steps), id, m) && Sees(Run(Start(depth), steps), id', m')
    ensures var s := Run(Start(depth), steps);
            && Faithful(s, m) && Faithful(s, m')
            && (m.seqNo <= m'.seqNo ==> s.stamps[m.seqNo] <= s.stamps[m'.seqNo])
  {
    hide Depth;
    RunKeepsInv(depth, steps);
    var s := Run(Start(depth), steps);
    assert SubscriberSound(s, s.subscribers[id]) && SubscriberSound(s, s.subscribers[id']);
  }

  /** Levels of the empty book. */
  const NO_DEPTH: DepthView := Sides([], [])

  function ShownDepth(sub: Subscriber): DepthView {
    match LastDepth(Stream(sub))
    case None => NO_DEPTH
    case Some(m) => if m.Status? then NO_DEPTH else m.depth
  }

  /**
    Whenever the worker is between changes, every subscriber that has made its snapshot request shows
    the current depth view: no update is lost in the race between registering and reading.
  */
  lemma NoUpdateLost(depth: nat, steps: seq<Step>, id: nat)
    requires var s := Run(Start(depth), steps);
             s.worker == Idle && id in s.subscribers && s.subscribers[id].first != Unread
    ensures var s := Run(Start(depth), steps); ShownDepth(s.subscribers[id]) == s.View()
  {
    hide Depth, Run;
    RunKeepsInv(depth, steps);
    IdleShowsCurrent(Run(Start(depth), steps), id);
  }

  lemma IdleShowsCurrent(s: State, id: nat)
    requires Inv(s) && s.worker == Idle && id in s.subscribers && s.subscribers[id].first != Unread
    ensures ShownDepth(s.subscribers[id]) == s.View()
  {
    hide Depth;
    var sub := s.subscribers[id];
    assert SubscriberSound(s, sub);
    StreamLastDepth(sub);
    LastDepthInQueue(sub.queue);
    EmptyDepthIfEmpty(s.Current(), s.depth);
  }

  lemma EmptyDepthIfEmpty(b: Book, depth: nat)
    ensures IsEmpty(b) ==> Depth(b, depth) == NO_DEPTH
  {
  }

  lemma StreamLastDepth(sub: Subscriber)
    ensures LastDepth(sub.queue).Some? ==> LastDepth(Stream(sub)) == LastDepth(sub.queue)
    ensures LastDepth(sub.queue).None? && !sub.first.Got? ==> LastDepth(Stream(sub)) == None
    ensures LastDepth(sub.queue).None? && sub.first.Got? && !sub.first.message.Status?
        ==> LastDepth(Stream(sub)) == Some(sub.first.message)
  {
    var head := if sub.first.Got? then [sub.first.message] else [];
    LastDepthOfConcat(head, sub.queue);
    assert sub.first.Got? ==> head[..0] == [];
  }

  lemma {:induction false} LastDepthOfConcat(a: seq<Message>, b: seq<Message>)
    ensures LastDepth(a + b) == if LastDepth(b).Some? then LastDepth(b) else LastDepth(a)
  {
    if b == [] {
      assert a + b == a;
    } else if b[|b| - 1].Status? {
      LastDepthOfConcat(a, b[..|b| - 1]);
      assert (a + b)[..|a + b| - 1] == a + b[..|b| - 1];
    }
  }

  // ---- who is served, and with what ----

  /** What a subscriber is after one message was sent to its channel. */
  ghost predicate Served(before: Subscriber, after: Subscriber, messages: seq<Message>) {
    after.queue == before.queue + messages && after.first == before.first && after.open == before.open
  }

  /** Sending keeps exactly the open channels, and each of them gets the message once, behind its queue. */
  lemma EmitServesOpenChannels(subscribers: map<nat, Subscriber>, m: Message, id: nat)
    ensures id in EmitTo(subscribers, m) <==> id in subscribers && subscribers[id].open
    ensures id in EmitTo(subscribers, m) ==> Served(subscribers[id], EmitTo(subscribers, m)[id], [m])
  {
  }

  /** What a step sends to all channels. */
  function Sent(s: State, step: Step): seq<Message> {
    match step
    case EmitReady => if s.worker.Ready? then [s.worker.message] else []
    case EmitStatus(status) => if s.worker.Idle? then [Status(status)] else []
    case _ => []
  }

  function SentBy(s: State, steps: seq<Step>): seq<Message> {
    if steps == [] then []
    else SentBy(s, steps[..|steps| - 1]) + Sent(Run(s, steps[..|steps| - 1]), steps[|steps| - 1])
  }

  /** The channel's own end is not given up, from either side. */
  predicate Spares(steps: seq<Step>, id: nat) {
    forall i :: 0 <= i < |steps| ==> steps[i] != HangUp(id) && steps[i] != Unsubscribe(id)
  }

  /** Numbers handed out are never handed out again. */
  lemma NextKeepsOthers(s: State, step: Step, id: nat)
    requires id in s.subscribers && id < s.nextId && s.subscribers[id].open
    requires step != HangUp(id) && step != Unsubscribe(id)
    ensures var s' := Next(s, step);
            && id in s'.subscribers && id < s'.nextId && s'.subscribers[id].open
            && s'.subscribers[id].queue == s.subscribers[id].queue + Sent(s, step)
            && (s'.subscribers[id].first == s.subscribers[id].first || s.subscribers[id].first == Unread)
  {
    hide Depth, AfterDelta, FromSnapshot;
  }

  lemma {:induction false} RunKeepsSubscriber(s: State, steps: seq<Step>, id: nat)
    requires id in s.subscribers && id < s.nextId && s.subscribers[id].open && Spares(steps, id)
    ensures var s' := Run(s, steps);
            && id in s'.subscribers && id < s'.nextId && s'.subscribers[id].open
            && s'.subscribers[id].queue == s.subscribers[id].queue + SentBy(s, steps)
            && (s'.subscribers[id].first == s.subscribers[id].first || s.subscribers[id].first == Unread)
  {
    hide Next, Sent;
    if steps == [] {
    } else {
      var (init, step) := (steps[..|steps| - 1], steps[|steps| - 1]);
      RunKeepsSubscriber(s, init, id);
      NextKeepsOthers(Run(s, init), step, id);
    }
  }

  /**
    Over every run, a subscriber that has not hung up and was not removed is still registered, and its queue
    has grown by exactly the messages sent since, in their order.
  */
  lemma SubscribersKeptAndServed(depth: nat, steps: seq<Step>, later: seq<Step>, id: nat)
    requires var s := Run(Start(depth), steps); id in s.subscribers && s.subscribers[id].open
    requires Spares(later, id)
    ensures var (s, s') := (Run(Start(depth), steps), Run(Run(Start(depth), steps), later));
            && id in s'.subscribers && s'.subscribers[id].open
            && s'.subscribers[id].queue == s.subscribers[id].queue + SentBy(s, later)
  {
    hide Run, SentBy, Spares;
    RunKeepsInv(depth, steps);
    assert id < Run(Start(depth), steps).nextId by { hide SubscriberSound, StampsRise, WorkerSound; }
    hide Inv;
    RunKeepsSubscriber(Run(Start(depth), steps), later, id);
  }

  /** Joining, reading and leaving do what they say, and nothing to the other subscribers. */
  lemma SubscriberSteps(s: State, id: nat)
    ensures Next(s, Register).subscribers == s.subscribers[s.nextId := Subscriber(Unread, [], true)]
    ensures Next(s, Register).nextId == s.nextId + 1
    ensures Next(s, Unsubscribe(id)).subscribers == s.subscribers - {id}
    ensures id in s.subscribers ==>
              Next(s, HangUp(id)).subscribers == s.subscribers[id := s.subscribers[id].(open := false)]
  {
    hide Depth, AfterDelta, FromSnapshot, EmitTo, Outcome;
  }

  /** A first read gives the current view under a fresh number, and nothing while the book is empty. */
  lemma FirstReadMeaning(s: State, id: nat)
    requires id in s.subscribers && s.subscribers[id].first == Unread
    ensures var (b, s', sub) := (s.Current(), Next(s, ReadSnapshot(id)), s.subscribers[id]);
            if b.bids == map[] && b.asks == map[] then
              s' == s.(subscribers := s.subscribers[id := sub.(first := NothingYet)])
            else
              var m := SnapshotMessage(s.nextSeq, b.lastTs, Depth(b, s.depth));
              s'.nextSeq == s.nextSeq + 1 && s'.subscribers == s.subscribers[id := sub.(first := Got(m))]
  {
    hide Depth, AfterDelta, FromSnapshot, EmitTo, Outcome;
  }

  /** One upstream delta that joins on: applied, numbered, and sent with its own timestamps and the new view. */
  lemma DeltaIsSent(s: State, d: BookDelta)
    requires s.worker == Idle && s.books != []
    requires d.lastMaxTs <= s.Current().lastTs < d.maxTs
    ensures var b := AfterDelta(s.Current(), d);
            var (s1, s2) := (Next(s, Apply(d)), Next(Next(s, Apply(d)), NumberUpdate));
            && s1.books == s.books + [b] && s2.books == s1.books && s2.nextSeq == s.nextSeq + 1
            && Sent(s2, EmitReady)
            == [UpdateMessage(s.nextSeq, d.maxTs, d.minTs, d.maxTs, Depth(b, s.depth))]
  {
    hide Depth, FromSnapshot, EmitTo;
    assert AfterDelta(s.Current(), d).lastTs == d.maxTs;
    hide AfterDelta;
  }

  // ---- the messages sent, one for every change ----

  function DepthsOf(messages: seq<Message>): seq<Message> {
    if messages == [] then []
    else
      var (rest, m) := (DepthsOf(messages[..|messages| - 1]), messages[|messages| - 1]);
      if m.Status? then rest else rest + [m]
  }

  lemma {:induction false} DepthsOfConcat(a: seq<Message>, b: seq<Message>)
    ensures DepthsOf(a + b) == DepthsOf(a) + DepthsOf(b)
  {
    if b == [] {
      assert a + b == a;
    } else {
      DepthsOfConcat(a, b[..|b| - 1]);
      assert (a + b)[..|a + b| - 1] == a + b[..|b| - 1];
    }
  }

  ghost predicate Shows(m: Message, b: Book, depth: nat) {
    !m.Status? && m.depth == Depth(b, depth) && m.sourceTs == b.lastTs
  }

  /** The depth messages sent so far show the books after the changes, one by one; one may be on its way. */
  ghost predicate OnePerChange(s: State, sent: seq<Message>) {
    && |s.books| >= 1 && |sent| == |s.books| - (if s.worker == Idle then 1 else 2) >= 0
    && (forall k :: 0 <= k < |sent| ==> Shows(sent[k], s.books[k + 1], s.depth))
    && (s.worker.Changed? ==> s.worker.depth == s.View() && s.worker.sourceTs == s.Current().lastTs)
    && (s.worker.Ready? ==> Shows(s.worker.message, s.Current(), s.depth))
  }

  lemma NextKeepsOnePerChange(s: State, step: Step, sent: seq<Message>)
    requires OnePerChange(s, sent)
    ensures OnePerChange(Next(s, step), sent + DepthsOf(Sent(s, step)))
  {
    hide Depth, AfterDelta, FromSnapshot, EmitTo, Outcome;
    DepthsOfOne(s, step);
    hide DepthsOf;
  }

  lemma DepthsOfOne(s: State, step: Step)
    ensures DepthsOf(Sent(s, step))
         == if step.EmitReady? && s.worker.Ready? && !s.worker.message.Status? then [s.worker.message] else []
  {
    var sent := Sent(s, step);
    if sent != [] {
      assert sent[..0] == [] && sent[0] == sent[|sent| - 1];
    }
  }

  /**
    Over every run, the k-th depth message sent shows exactly the book after the k-th change, and whenever
    the worker is between changes, one has been sent for every change.
  */
  lemma {:induction false} EveryChangeIsSent(depth: nat, steps: seq<Step>)
    ensures OnePerChange(Run(Start(depth), steps), DepthsOf(SentBy(Start(depth), steps)))
    ensures Run(Start(depth), steps).depth == depth
  {
    hide OnePerChange, Depth, Sent;
    if steps == [] {
      assert OnePerChange(Start(depth), []) by { StartsEven(depth); }
    } else {
      var (init, step) := (steps[..|steps| - 1], steps[|steps| - 1]);
      EveryChangeIsSent(depth, init);
      var s := Run(Start(depth), init);
      DepthsOfConcat(SentBy(Start(depth), init), Sent(s, step));
      NextKeepsOnePerChange(s, step, DepthsOf(SentBy(Start(depth), init)));
      assert Next(s, step).depth == s.depth by { hide AfterDelta, FromSnapshot, EmitTo, Outcome; }
      hide Next, DepthsOf;
    }
  }

  lemma StartsEven(depth: nat)
    ensures OnePerChange(Start(depth), [])
  {
  }
}

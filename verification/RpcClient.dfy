/**
  Callers, the command channel and the connection worker together (nado-rust-sdk/src/subscriptions.rs):
  what every caller of send_request can rely on, over every interleaving.
*/
module RpcClient {
  import opened Base
  import opened Rpc

  datatype Command = Ask(id: nat, ticket: nat) | CloseConnection

  /**
    `unsent` are ids handed out and not yet used; `ids` gives each call of send_request its id; `open`
    while the worker still owns the receiving end of the channel. A call ends up in `refused` when the
    channel was closed before its send, in `lost` when its command was destroyed with the channel, in
    `expired` when its caller stopped waiting.
  */
  datatype System = System(
    nextId: nat, nextTicket: nat, capacity: nat, unsent: set<nat>, ids: map<nat, nat>,
    queue: seq<Command>, open: bool, worker: Worker,
    refused: set<nat>, lost: set<nat>, expired: set<nat>)

  function Init(capacity: nat): System {
    System(1, 0, capacity, {}, map[], [], true, START, {}, {}, {})
  }

  /** One step of a caller, of the worker, or of the runtime dropping the channel. */
  datatype Step = TakeId | Send(id: nat) | SendClose | GiveUp(ticket: nat) | Work(input: Input) | DropReceiver

  function Tickets(queue: seq<Command>): set<nat> {
    set k | 0 <= k < |queue| && queue[k].Ask? :: queue[k].ticket
  }

  /** Whether the worker can pick this input up: commands come from the front of the channel. */
  predicate Available(queue: seq<Command>, input: Input) {
    match input
    case Request(id, ticket, _) => queue != [] && queue[0] == Ask(id, ticket)
    case Close => queue != [] && queue[0] == CloseConnection
    case CommandsClosed => queue == []
    case _ => true
  }

  predicate TakesCommand(input: Input) { input.Request? || input.Close? }

  function AfterSend(s: System, id: nat): System {
    var s' := s.(nextTicket := s.nextTicket + 1, unsent := s.unsent - {id}, ids := s.ids[s.nextTicket := id]);
    if s.open then s'.(queue := s.queue + [Ask(id, s.nextTicket)])
    else s'.(refused := s.refused + {s.nextTicket})
  }

  /** A step that cannot be taken changes nothing; a send waits while the channel is full. */
  function Next(s: System, step: Step): System {
    match step
    case TakeId => s.(nextId := s.nextId + 1, unsent := s.unsent + {s.nextId})
    case Send(id) =>
      if id !in s.unsent || (s.open && |s.queue| >= s.capacity) then s else AfterSend(s, id)
    case SendClose =>
      if !s.open || |s.queue| >= s.capacity then s else s.(queue := s.queue + [CloseConnection])
    case GiveUp(ticket) =>
      if ticket < s.nextTicket && VerdictOf(s, ticket) == Waiting then s.(expired := s.expired + {ticket}) else s
    case Work(input) =>
      if !s.worker.running || !Available(s.queue, input) then s
      else s.(worker := Rpc.Next(s.worker, input), queue := if TakesCommand(input) then s.queue[1..] else s.queue)
    case DropReceiver =>
      if s.worker.running || !s.open then s
      else s.(open := false, lost := s.lost + Tickets(s.queue), queue := [])
  }

  function Run(capacity: nat, steps: seq<Step>): System {
    if steps == [] then Init(capacity) else Next(Run(capacity, steps[..|steps| - 1]), steps[|steps| - 1])
  }

  /** What a call of send_request has come to so far. */
  datatype Verdict = Waiting | NotRunning | TimedOut | ChannelDropped | Failed(error: string) | Got(response: Response)

  function VerdictOf(s: System, t: nat): Verdict {
    if t in s.refused then NotRunning
    else if t in s.expired then TimedOut
    else if t in s.lost then ChannelDropped
    else if t in s.worker.outcomes then
      match s.worker.outcomes[t]
      case Answered(r) => Got(r)
      case FailedWith(error) => Failed(error)
      case Dropped => ChannelDropped
    else Waiting
  }

  // ---- what every reachable state keeps ----

  /** No id is given to two calls. */
  ghost predicate IdsUnique(nextId: nat, nextTicket: nat, unsent: set<nat>, ids: map<nat, nat>) {
    && (forall t: nat :: t in ids <==> t < nextTicket)
    && (forall t :: t in ids ==> ids[t] < nextId && ids[t] !in unsent)
    && (forall t, u :: t in ids && u in ids && ids[t] == ids[u] ==> t == u)
    && (forall id :: id in unsent ==> id < nextId)
  }

  /** Every queued request carries its call's id, and no call is queued twice. */
  ghost predicate QueueFits(queue: seq<Command>, ids: map<nat, nat>) {
    && (forall k :: 0 <= k < |queue| && queue[k].Ask? ==> queue[k].ticket in ids && ids[queue[k].ticket] == queue[k].id)
    && (forall j, k :: 0 <= j < k < |queue| && queue[j].Ask? && queue[k].Ask? ==> queue[j].ticket != queue[k].ticket)
  }

  /** Every call is in exactly one of these four places. */
  ghost predicate PlacedOnce(queued: set<nat>, received: set<nat>, refused: set<nat>, lost: set<nat>, all: set<nat>) {
    && queued + received + refused + lost == all
    && queued !! received && queued !! refused && queued !! lost
    && received !! refused && received !! lost && refused !! lost
  }

  ghost predicate Placed(s: System) {
    PlacedOnce(Tickets(s.queue), s.worker.idOf.Keys, s.refused, s.lost, s.ids.Keys)
  }

  ghost predicate WorkerSound(w: Worker) {
    Accounted(w) && NoneDropped(w) && (!w.running ==> w.pending == map[])
  }

  ghost predicate KnownIds(w: Worker, ids: map<nat, nat>) {
    forall t :: t in w.idOf ==> t in ids && w.idOf[t] == ids[t]
  }

  ghost predicate ChannelFits(s: System) {
    && (s.open ==> s.refused == {} && s.lost == {})
    && (!s.open ==> !s.worker.running && s.queue == [])
    && (forall t :: t in s.expired ==> t in s.ids)
  }

  ghost predicate Inv(s: System) {
    && IdsUnique(s.nextId, s.nextTicket, s.unsent, s.ids) && QueueFits(s.queue, s.ids) && Placed(s)
    && WorkerSound(s.worker) && KnownIds(s.worker, s.ids) && ChannelFits(s)
  }

  lemma SendKeepsIdsUnique(s: System, id: nat)
    requires IdsUnique(s.nextId, s.nextTicket, s.unsent, s.ids) && id in s.unsent
    ensures IdsUnique(s.nextId, s.nextTicket + 1, s.unsent - {id}, s.ids[s.nextTicket := id]) && s.nextTicket !in s.ids
  {
  }

  lemma SendKeepsQueueFits(queue: seq<Command>, ids: map<nat, nat>, id: nat, ticket: nat)
    requires QueueFits(queue, ids) && ticket !in ids
    ensures QueueFits(queue, ids[ticket := id]) && QueueFits(queue + [Ask(id, ticket)], ids[ticket := id])
  {
  }

  lemma SendKeepsPlaced(s: System, id: nat)
    requires Placed(s) && s.nextTicket !in s.ids
    ensures Placed(AfterSend(s, id))
  {
    TicketsPushed(s.queue, Ask(id, s.nextTicket));
    hide Tickets;
    assert AfterSend(s, id).ids.Keys == s.ids.Keys + {s.nextTicket};
  }

  lemma SendKeepsInv(s: System, id: nat)
    requires Inv(s) && id in s.unsent
    ensures Inv(AfterSend(s, id))
  {
    hide IdsUnique, QueueFits, Placed, WorkerSound;
    SendKeepsIdsUnique(s, id);
    SendKeepsQueueFits(s.queue, s.ids, id, s.nextTicket);
    SendKeepsPlaced(s, id);
  }

  lemma TicketsPushed(queue: seq<Command>, c: Command)
    ensures Tickets(queue + [c]) == Tickets(queue) + (if c.Ask? then {c.ticket} else {})
  {
    var q := queue + [c];
    assert q[|queue|] == c;
    assert forall k :: 0 <= k < |queue| ==> q[k] == queue[k];
    forall t | t in Tickets(queue) ensures t in Tickets(q) {
      var k :| 0 <= k < |queue| && queue[k].Ask? && queue[k].ticket == t;
      assert q[k] == queue[k];
    }
  }

  lemma TicketsPopped(queue: seq<Command>)
    requires queue != []
    ensures Tickets(queue) == Tickets(queue[1..]) + (if queue[0].Ask? then {queue[0].ticket} else {})
  {
  }

  lemma CloseKeepsInv(s: System)
    requires Inv(s) && s.open
    ensures Inv(s.(queue := s.queue + [CloseConnection]))
  {
    hide IdsUnique, WorkerSound, Tickets, KnownIds, PlacedOnce;
    TicketsPushed(s.queue, CloseConnection);
    assert Tickets(s.queue) + {} == Tickets(s.queue);
  }

  lemma WorkKeepsWorkerSound(s: System, input: Input)
    requires Inv(s) && Available(s.queue, input)
    ensures WorkerSound(Rpc.Next(s.worker, input))
  {
    if input.Request? {
      HeadIsNew(s, input.id, input.ticket);
    }
    hide Inv;
    NextKeepsAccounted(s.worker, input);
    NextDropsNothing(s.worker, input);
    StoppedIsEmpty(s.worker, input);
    hide Accounted, NoneDropped, Rpc.Next;
  }

  lemma WorkKeepsInv(s: System, input: Input)
    requires Inv(s) && s.worker.running && Available(s.queue, input)
    ensures Inv(Next(s, Work(input)))
  {
    hide WorkerSound, Rpc.Next, Tickets, IdsUnique, QueueFits, PlacedOnce;
    WorkKeepsWorkerSound(s, input);
    NextIds(s.worker, input);
    if TakesCommand(input) {
      PopKeepsQueueFits(s.queue, s.ids);
      WorkKeepsPlaced(s, input);
    }
  }

  lemma WorkKeepsPlaced(s: System, input: Input)
    requires Inv(s) && s.worker.running && Available(s.queue, input) && TakesCommand(input)
    ensures Placed(Next(s, Work(input)))
    ensures input.Request? ==> input.ticket in s.ids && s.ids[input.ticket] == input.id
  {
    hide WorkerSound, Rpc.Next, Tickets, IdsUnique, QueueFits;
    NextIds(s.worker, input);
    TicketsPopped(s.queue);
    if input.Request? {
      HeadIsNew(s, input.id, input.ticket);
      assert s.worker.idOf[input.ticket := input.id].Keys == s.worker.idOf.Keys + {input.ticket};
    }
  }

  /** The command at the front of the channel is new to the worker, and so is its id. */
  lemma HeadIsNew(s: System, id: nat, ticket: nat)
    requires Inv(s) && s.queue != [] && s.queue[0] == Ask(id, ticket)
    ensures ticket in Tickets(s.queue) && ticket !in Tickets(s.queue[1..])
    ensures ticket in s.ids && s.ids[ticket] == id
    ensures ticket !in s.worker.idOf && id !in s.worker.pending
  {
    assert s.queue[0].ticket in Tickets(s.queue);
    hide PlacedOnce, Counted;
    PlacedFacts(s, ticket);
  }

  lemma PlacedFacts(s: System, t: nat)
    requires Placed(s)
    ensures t in Tickets(s.queue) ==> t !in s.worker.idOf && t !in s.refused && t !in s.lost
  {
  }

  lemma PopKeepsQueueFits(queue: seq<Command>, ids: map<nat, nat>)
    requires QueueFits(queue, ids) && queue != []
    ensures QueueFits(queue[1..], ids)
  {
  }

  lemma DroppedPlaced(queued: set<nat>, received: set<nat>, refused: set<nat>, lost: set<nat>, all: set<nat>)
    requires PlacedOnce(queued, received, refused, lost, all)
    ensures PlacedOnce({}, received, refused, lost + queued, all)
  {
  }

  lemma DropKeepsInv(s: System)
    requires Inv(s) && !s.worker.running && s.open
    ensures Inv(Next(s, DropReceiver))
  {
    assert Tickets([]) == {};
    hide IdsUnique, WorkerSound, KnownIds, Tickets;
    DroppedPlaced(Tickets(s.queue), s.worker.idOf.Keys, s.refused, s.lost, s.ids.Keys);
    hide PlacedOnce;
  }

  lemma NextKeepsInv(s: System, step: Step)
    requires Inv(s)
    ensures Inv(Next(s, step))
  {
    hide Inv, Tickets, VerdictOf, AfterSend, Rpc.Next;
    match step {
      case TakeId => TakeIdKeepsInv(s);
      case Send(id) => if id in s.unsent { SendKeepsInv(s, id); }
      case SendClose => if s.open { CloseKeepsInv(s); }
      case GiveUp(t) => if t < s.nextTicket { GiveUpKeepsInv(s, t); }
      case Work(input) => if s.worker.running && Available(s.queue, input) { WorkKeepsInv(s, input); }
      case DropReceiver => if !s.worker.running && s.open { DropKeepsInv(s); }
    }
  }

  lemma TakeIdKeepsInv(s: System)
    requires Inv(s)
    ensures Inv(s.(nextId := s.nextId + 1, unsent := s.unsent + {s.nextId}))
  {
    hide QueueFits, PlacedOnce, WorkerSound, KnownIds, Tickets;
  }

  lemma GiveUpKeepsInv(s: System, t: nat)
    requires Inv(s) && t < s.nextTicket
    ensures Inv(s.(expired := s.expired + {t}))
  {
  }

  lemma {:induction false} RunKeepsInv(capacity: nat, steps: seq<Step>)
    ensures Inv(Run(capacity, steps))
  {
    hide Inv;
    if steps == [] {
      InitInv(capacity);
    } else {
      RunKeepsInv(capacity, steps[..|steps| - 1]);
      NextKeepsInv(Run(capacity, steps[..|steps| - 1]), steps[|steps| - 1]);
    }
  }

  lemma InitInv(capacity: nat)
    ensures Inv(Init(capacity))
  {
  }

  // ---- what a caller sees ----

  lemma AnswerIsOwn(s: System, t: nat)
    requires Inv(s) && t in s.worker.outcomes
    ensures t in s.ids && s.worker.outcomes[t] != Dropped
    ensures s.worker.outcomes[t].Answered? ==> s.worker.outcomes[t].response.id == s.ids[t]
  {
  }

  lemma PlacedSomewhere(s: System, t: nat)
    requires Inv(s) && t in s.ids
    ensures t in Tickets(s.queue) || t in s.worker.idOf || t in s.refused || t in s.lost
  {
    hide IdsUnique, QueueFits, Tickets, WorkerSound, KnownIds, ChannelFits;
  }

  lemma ReceivedSomewhere(s: System, t: nat)
    requires Inv(s) && t in s.worker.idOf
    ensures t in s.ids && s.worker.idOf[t] == s.ids[t]
    ensures (t in s.worker.outcomes) != (s.ids[t] in s.worker.pending && s.worker.pending[s.ids[t]] == t)
  {
  }

  /** Every answer a caller gets carries the id of its own request. */
  lemma AnswersAreOwn(capacity: nat, steps: seq<Step>, t: nat)
    ensures var s := Run(capacity, steps);
      VerdictOf(s, t).Got? ==> t in s.ids && VerdictOf(s, t).response.id == s.ids[t]
  {
    hide Inv;
    RunKeepsInv(capacity, steps);
    if t in Run(capacity, steps).worker.outcomes {
      AnswerIsOwn(Run(capacity, steps), t);
    }
  }

  /** No two calls are ever answered by the same id. */
  lemma AnswersAreDistinct(capacity: nat, steps: seq<Step>, t: nat, u: nat)
    requires VerdictOf(Run(capacity, steps), t).Got? && VerdictOf(Run(capacity, steps), u).Got? && t != u
    ensures VerdictOf(Run(capacity, steps), t).response.id != VerdictOf(Run(capacity, steps), u).response.id
  {
    hide Inv;
    RunKeepsInv(capacity, steps);
    AnswersAreOwn(capacity, steps, t);
    AnswersAreOwn(capacity, steps, u);
    IdsDiffer(Run(capacity, steps), t, u);
  }

  lemma IdsDiffer(s: System, t: nat, u: nat)
    requires Inv(s) && t in s.ids && u in s.ids && t != u
    ensures s.ids[t] != s.ids[u]
  {
    hide QueueFits, Placed, WorkerSound, KnownIds, ChannelFits;
  }

  lemma Issued(s: System, t: nat)
    requires Inv(s)
    ensures t in s.ids <==> t < s.nextTicket
  {
  }

  /**
    Once the worker has let go of the channel, no call is left waiting: one that the worker received was
    answered or failed, every other saw its channel dropped or was turned away, unless its caller gave up.
  */
  lemma NobodyLeftWaiting(capacity: nat, steps: seq<Step>, t: nat)
    requires !Run(capacity, steps).open && t < Run(capacity, steps).nextTicket
    ensures var s := Run(capacity, steps);
      match VerdictOf(s, t)
      case Waiting => false
      case Got(_) => t in s.worker.idOf
      case Failed(_) => t in s.worker.idOf
      case ChannelDropped => t !in s.worker.idOf
      case NotRunning => t !in s.worker.idOf
      case TimedOut => t in s.expired
  {
    hide Inv, Run;
    var s := Run(capacity, steps);
    RunKeepsInv(capacity, steps);
    StoppedState(s);
    Issued(s, t);
    PlacedSomewhere(s, t);
    NotBoth(s, t);
    if t in s.worker.idOf {
      ReceivedSomewhere(s, t);
    }
    if t in s.worker.outcomes {
      AnswerIsOwn(s, t);
    }
  }

  lemma NotBoth(s: System, t: nat)
    requires Inv(s)
    ensures t in s.worker.idOf ==> t !in s.refused && t !in s.lost
    ensures t in s.worker.outcomes ==> t in s.worker.idOf
  {
    hide IdsUnique, QueueFits, KnownIds, ChannelFits, Counted, Tickets;
  }

  lemma StoppedState(s: System)
    requires Inv(s) && !s.open
    ensures Tickets(s.queue) == {} && s.worker.pending == map[] && !s.worker.running
  {
  }

  /** A call that still waits sits in the channel or with the worker under its own id, and not in both. */
  lemma WaitingIsSomewhere(capacity: nat, steps: seq<Step>, t: nat)
    requires t < Run(capacity, steps).nextTicket && VerdictOf(Run(capacity, steps), t) == Waiting
    ensures var s := Run(capacity, steps);
      t in s.ids && (t in Tickets(s.queue)) != (s.ids[t] in s.worker.pending && s.worker.pending[s.ids[t]] == t)
  {
    var s := Run(capacity, steps);
    hide Run;
    RunKeepsInv(capacity, steps);
    PlacedFacts(s, t);
    hide Inv;
    Issued(s, t);
    PlacedSomewhere(s, t);
    if t in s.worker.idOf {
      ReceivedSomewhere(s, t);
    }
    PendingIsReceived(s, s.ids[t]);
  }

  lemma PendingIsReceived(s: System, id: nat)
    requires Inv(s)
    ensures id in s.worker.pending ==> s.worker.pending[id] in s.worker.idOf
  {
  }

  /** While the worker holds the channel, no caller sees its own channel dropped or is turned away. */
  lemma DroppedOnlyAfterExit(capacity: nat, steps: seq<Step>, t: nat)
    ensures var s := Run(capacity, steps);
      VerdictOf(s, t) in {ChannelDropped, NotRunning} ==> !s.open && !s.worker.running
  {
    hide Inv, Run;
    var s := Run(capacity, steps);
    RunKeepsInv(capacity, steps);
    if t in s.worker.outcomes {
      AnswerIsOwn(s, t);
    }
    OpenState(s);
  }

  lemma OpenState(s: System)
    requires Inv(s)
    ensures s.open ==> s.refused == {} && s.lost == {}
    ensures !s.open ==> !s.worker.running
  {
  }

  /** A call is resolved at most once: its verdict never changes again. */
  lemma VerdictIsFinal(capacity: nat, steps: seq<Step>, step: Step, t: nat)
    requires VerdictOf(Run(capacity, steps), t) != Waiting
    ensures VerdictOf(Run(capacity, steps + [step]), t) == VerdictOf(Run(capacity, steps), t)
  {
    hide Inv, Next, VerdictOf;
    RunKeepsInv(capacity, steps);
    assert (steps + [step])[..|steps|] == steps;
    VerdictStays(Run(capacity, steps), step, t);
  }

  lemma VerdictStays(s: System, step: Step, t: nat)
    requires Inv(s) && VerdictOf(s, t) != Waiting
    ensures VerdictOf(Next(s, step), t) == VerdictOf(s, t)
  {
    hide Inv, Rpc.Next, Tickets;
    ResolvedIsIssued(s, t);
    Issued(s, t);
    match step {
      case Work(input) =>
        if s.worker.running && Available(s.queue, input) {
          WorkKeepsVerdict(s, input, t);
        }
      case DropReceiver =>
        if t in Tickets(s.queue) {
          QueuedIsWaiting(s, t);
        }
      case _ =>
    }
  }

  lemma ResolvedIsIssued(s: System, t: nat)
    requires Inv(s) && VerdictOf(s, t) != Waiting
    ensures t in s.ids
  {
    if t in s.worker.outcomes {
      AnswerIsOwn(s, t);
    }
    hide IdsUnique, QueueFits, Tickets, KnownIds, WorkerSound;
  }

  lemma QueuedIsWaiting(s: System, t: nat)
    requires Inv(s) && t in Tickets(s.queue)
    ensures t !in s.refused && t !in s.lost && t !in s.worker.outcomes
  {
    PlacedFacts(s, t);
    hide IdsUnique, QueueFits, Tickets, KnownIds, Placed, ChannelFits, Counted;
  }

  lemma WorkKeepsVerdict(s: System, input: Input, t: nat)
    requires Inv(s) && s.worker.running && Available(s.queue, input)
    requires VerdictOf(s, t) != Waiting
    ensures VerdictOf(Next(s, Work(input)), t) == VerdictOf(s, t)
  {
    hide Inv, Rpc.Next, Accounted;
    if t in s.worker.outcomes {
      if input.Request? {
        HeadIsNew(s, input.id, input.ticket);
      }
      WorkerIsAccounted(s);
      OutcomeIsFinal(s.worker, input, t);
    }
  }

  lemma WorkerIsAccounted(s: System)
    requires Inv(s)
    ensures Accounted(s.worker)
  {
  }

  // ---- what each step does ----

  /** Taking an id and sending with it: the command joins the channel, or the caller is turned away. */
  lemma CallerSteps(s: System, id: nat, t: nat)
    ensures Next(s, TakeId) == s.(nextId := s.nextId + 1, unsent := s.unsent + {s.nextId})
    ensures id in s.unsent && s.open && |s.queue| < s.capacity ==>
              var s' := Next(s, Send(id));
              && s'.queue == s.queue + [Ask(id, s.nextTicket)] && s'.ids == s.ids[s.nextTicket := id]
              && s'.nextTicket == s.nextTicket + 1 && s'.unsent == s.unsent - {id} && s'.worker == s.worker
    ensures id in s.unsent && !s.open ==> VerdictOf(Next(s, Send(id)), s.nextTicket) == NotRunning
    ensures s.open && |s.queue| < s.capacity ==> Next(s, SendClose).queue == s.queue + [CloseConnection]
    ensures t < s.nextTicket && VerdictOf(s, t) == Waiting ==>
              VerdictOf(Next(s, GiveUp(t)), t) == TimedOut
  {
    hide Rpc.Next, Tickets;
  }

  /** The worker takes commands from the front, one at a time; what it leaves behind is lost with the channel. */
  lemma WorkerSteps(s: System, input: Input, k: nat)
    ensures s.worker.running && Available(s.queue, input) ==>
              var s' := Next(s, Work(input));
              && s'.worker == Rpc.Next(s.worker, input)
              && s'.queue == (if input.Request? || input.Close? then s.queue[1..] else s.queue)
    ensures !s.worker.running && s.open ==>
              var s' := Next(s, DropReceiver);
              && !s'.open && s'.queue == []
              && (k < |s.queue| && s.queue[k].Ask? ==>
                    s.queue[k].ticket !in s.refused && s.queue[k].ticket !in s.expired ==>
                      VerdictOf(s', s.queue[k].ticket) == ChannelDropped)
  {
    hide Rpc.Next;
  }

  lemma RunFurther(capacity: nat, steps: seq<Step>, step: Step)
    ensures Run(capacity, steps + [step]) == Next(Run(capacity, steps), step)
  {
    assert (steps + [step])[..|steps|] == steps;
  }

  predicate LosesConnection(input: Input) {
    input in {CommandsClosed, BadMessage, CloseFrame, ReadError, EndOfStream}
    || (input.PingTick? && !input.written) || (input.PingFrame? && !input.written)
    || (input.EventText? && !input.delivered)
  }

  /**
    Whatever happened before, once the connection is lost and the worker has gone, no call waits: unless
    its caller had given up, a written one has failed with the reason, and a queued one lost its channel.
  */
  lemma LostConnectionFreesEveryone(capacity: nat, steps: seq<Step>, input: Input, t: nat)
    requires Run(capacity, steps).open && Run(capacity, steps).worker.running
    requires LosesConnection(input) && (input.CommandsClosed? ==> Run(capacity, steps).queue == [])
    requires t < Run(capacity, steps).nextTicket
    ensures var (before, after) := (Run(capacity, steps), Run(capacity, steps + [Work(input)] + [DropReceiver]));
            && !after.open && VerdictOf(after, t) != Waiting
            && (VerdictOf(before, t) == Waiting && t in before.worker.pending.Values ==>
                  VerdictOf(after, t) == Failed(FarewellText(input)))
            && (VerdictOf(before, t) == Waiting && t in Tickets(before.queue) ==> VerdictOf(after, t) == ChannelDropped)
  {
    hide Run, Next, VerdictOf, Tickets, Rpc.Next;
    var s := Run(capacity, steps);
    RunKeepsInv(capacity, steps);
    RunFurther(capacity, steps, Work(input));
    RunFurther(capacity, steps + [Work(input)], DropReceiver);
    LossStops(s, input);
    LossTells(s, input, t);
    NobodyLeftWaiting(capacity, steps + [Work(input)] + [DropReceiver], t);
  }

  lemma LossStops(s: System, input: Input)
    requires s.open && s.worker.running && LosesConnection(input) && (input.CommandsClosed? ==> s.queue == [])
    ensures var s1 := Next(s, Work(input));
            && s1 == s.(worker := Rpc.Next(s.worker, input)) && !s1.worker.running
            && Next(s1, DropReceiver) == s1.(open := false, lost := s1.lost + Tickets(s1.queue), queue := [])
  {
    NextRunning(s.worker, input);
    hide Rpc.Next, Tickets;
  }

  lemma LossTells(s: System, input: Input, t: nat)
    requires Inv(s) && s.worker.running && LosesConnection(input)
    ensures var w := Rpc.Next(s.worker, input);
            var after := s.(worker := w, open := false, lost := s.lost + Tickets(s.queue), queue := []);
            && (VerdictOf(s, t) == Waiting && t in s.worker.pending.Values ==>
                  VerdictOf(after, t) == Failed(FarewellText(input)))
            && (VerdictOf(s, t) == Waiting && t in Tickets(s.queue) ==> VerdictOf(after, t) == ChannelDropped)
  {
    hide Inv, Tickets, Rpc.Next, FarewellText;
    if t in s.worker.pending.Values {
      PendingNotQueued(s, t);
      EndMeaning(s.worker, input, t);
    }
  }

  lemma PendingNotQueued(s: System, t: nat)
    requires Inv(s) && t in s.worker.pending.Values
    ensures t !in Tickets(s.queue)
  {
    var id :| id in s.worker.pending && s.worker.pending[id] == t;
    PendingIsReceived(s, id);
    hide IdsUnique, QueueFits, WorkerSound, KnownIds, ChannelFits, PlacedOnce, Tickets;
    PlacedFacts(s, t);
  }

  /**
    From any reachable state with an idle channel and a running worker, a call that is sent, written and
    answered under its id gets exactly that answer.
  */
  lemma CallIsAnswered(capacity: nat, steps: seq<Step>, body: string)
    requires var s := Run(capacity, steps); s.open && s.worker.running && s.queue == [] && capacity == s.capacity > 0
    ensures var s := Run(capacity, steps);
            var (id, t, r) := (s.nextId, s.nextTicket, Response(s.nextId, body));
            var sent := steps + [TakeId] + [Send(id)];
            VerdictOf(Run(capacity, sent + [Work(Request(id, t, true))] + [Work(ResponseText(r))]), t) == Got(r)
  {
    hide Run, Next, VerdictOf;
    var s := Run(capacity, steps);
    var (id, t, r) := (s.nextId, s.nextTicket, Response(s.nextId, body));
    RunKeepsInv(capacity, steps);
    RunFurther(capacity, steps, TakeId);
    RunFurther(capacity, steps + [TakeId], Send(id));
    RunFurther(capacity, steps + [TakeId] + [Send(id)], Work(Request(id, t, true)));
    RunFurther(capacity, steps + [TakeId] + [Send(id)] + [Work(Request(id, t, true))], Work(ResponseText(r)));
    var s2 := Next(Next(s, TakeId), Send(id));
    SentFirst(s);
    WrittenAndAnswered(s2, id, t, r);
    NewCallUnseen(s);
  }

  lemma SentFirst(s: System)
    requires s.open && s.queue == [] && s.capacity > 0
    ensures var s2 := Next(Next(s, TakeId), Send(s.nextId));
            && s2.queue == [Ask(s.nextId, s.nextTicket)] && s2.worker == s.worker
            && s2.refused == s.refused && s2.expired == s.expired && s2.lost == s.lost
  {
  }

  lemma NewCallUnseen(s: System)
    requires Inv(s)
    ensures s.nextTicket !in s.refused && s.nextTicket !in s.expired && s.nextTicket !in s.lost
  {
    hide IdsUnique, QueueFits, WorkerSound, KnownIds, Placed;
    Issued(s, s.nextTicket);
    PlacedKnown(s, s.nextTicket);
  }

  lemma PlacedKnown(s: System, t: nat)
    requires Placed(s)
    ensures t in s.refused || t in s.lost ==> t in s.ids
  {
    hide Tickets;
    assert t in s.refused || t in s.lost ==> t in s.ids.Keys;
  }

  lemma WrittenAndAnswered(s: System, id: nat, t: nat, r: Response)
    requires s.queue == [Ask(id, t)] && s.worker.running && r.id == id
    requires t !in s.refused && t !in s.expired && t !in s.lost
    ensures var s4 := Next(Next(s, Work(Request(id, t, true))), Work(ResponseText(r)));
            VerdictOf(s4, t) == Got(r)
  {
    StepMeaning(s.worker, Request(id, t, true));
    NextRunning(s.worker, Request(id, t, true));
    var w := Rpc.Next(s.worker, Request(id, t, true));
    StepMeaning(w, ResponseText(r));
    NextRunning(w, ResponseText(r));
    hide Rpc.Next;
  }
}

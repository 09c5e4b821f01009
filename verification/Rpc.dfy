/**
  Matching websocket responses to requests (nado-rust-sdk/src/subscriptions.rs): the connection worker
  with its table of pending requests, and the callers and the command channel around it.
*/
module Rpc {
  import opened Base

  datatype Response = Response(id: nat, body: string)

  /** What ends up in a request's one-shot channel; Dropped when its sender is destroyed unused. */
  datatype Outcome = Answered(response: Response) | FailedWith(error: string) | Dropped

  /** What the select loop picks up next. A request carries its own one-shot sender, named by a ticket. */
  datatype Input =
    | CommandsClosed
    | Request(id: nat, ticket: nat, written: bool)
    | Close
    | PingTick(written: bool)
    | ResponseText(response: Response)
    | EventText(delivered: bool)
    | BadMessage
    | PingFrame(written: bool)
    | QuietFrame
    | CloseFrame
    | ReadError
    | EndOfStream

  /**
    The worker's table of pending senders by request id, and what has been sent so far: `sends` counts
    every use or loss of a sender, `taken` every request received, `idOf` their ids.
  */
  datatype Worker = Worker(
    pending: map<nat, nat>, outcomes: map<nat, Outcome>, sends: nat, taken: nat, idOf: map<nat, nat>, running: bool)
  {
    function Resolve(ticket: nat, o: Outcome): Worker {
      this.(outcomes := outcomes[ticket := o], sends := sends + 1)
    }
  }

  const START: Worker := Worker(map[], map[], 0, 0, map[], true)

  /** The pending senders of these ids given the error. */
  function Drained(w: Worker, ids: set<nat>, error: string): map<nat, Outcome> {
    w.outcomes + map id | id in ids && id in w.pending :: w.pending[id] := FailedWith(error)
  }

  /** Leaving the loop: every pending sender gets the error. */
  function Exit(w: Worker, error: string): Worker {
    w.(pending := map[], running := false, sends := w.sends + |w.pending|,
       outcomes := Drained(w, w.pending.Keys, error))
  }

  /** handle_text_message on a response: the sender is removed and used; unknown ids are ignored. */
  function OnResponse(w: Worker, r: Response): Worker {
    if r.id in w.pending then w.(pending := w.pending - {r.id}).Resolve(w.pending[r.id], Answered(r)) else w
  }

  /** Inserting over an existing id destroys the older sender. */
  function OnWritten(w: Worker, id: nat, ticket: nat): Worker {
    var w' := if id in w.pending then w.Resolve(w.pending[id], Dropped) else w;
    w'.(pending := w'.pending[id := ticket])
  }

  function Taken(w: Worker, id: nat, ticket: nat): Worker {
    w.(taken := w.taken + 1, idOf := w.idOf[ticket := id])
  }

  /** Whether an input ends the loop, and with what error text. */
  function ExitError(input: Input): Option<string> {
    match input
    case CommandsClosed | Close | EndOfStream => Some("websocket connection closed")
    case Request(_, _, written) => if written then None else Some("failed sending websocket request")
    case PingTick(written) => if written then None else Some("failed sending ping")
    case PingFrame(written) => if written then None else Some("failed sending pong")
    case ResponseText(_) | QuietFrame => None
    case EventText(delivered) => if delivered then None else Some("event receiver dropped")
    case BadMessage => Some("invalid message")
    case CloseFrame => Some("websocket closed")
    case ReadError => Some("websocket read error")
  }

  /** The effect of an input before the loop is left, if it is. */
  function Effect(w: Worker, input: Input): Worker {
    match input
    case Request(id, ticket, written) =>
      var w' := Taken(w, id, ticket);
      if written then OnWritten(w', id, ticket)
      else w'.Resolve(ticket, FailedWith("failed sending websocket request"))
    case ResponseText(r) => OnResponse(w, r)
    case _ => w
  }

  function Next(w: Worker, input: Input): Worker {
    if !w.running then w
    else
      var w' := Effect(w, input);
      match ExitError(input)
      case None => w'
      case Some(error) => Exit(w', error)
  }

  function Run(inputs: seq<Input>): Worker {
    if inputs == [] then START else Next(Run(inputs[..|inputs| - 1]), inputs[|inputs| - 1])
  }

  // ---- the worker as it is written ----

  /** A response uses up the request of its id, if one is pending, and leaves everything else alone. */
  method HandleTextResponse(w: Worker, r: Response) returns (w': Worker)
    ensures r.id !in w'.pending && forall id :: id != r.id ==> PendingAt(w', id) == PendingAt(w, id)
    ensures w'.outcomes == (if r.id in w.pending then w.outcomes[w.pending[r.id] := Answered(r)] else w.outcomes)
    ensures w'.sends == w.sends + (if r.id in w.pending then 1 else 0)
    ensures w'.taken == w.taken && w'.idOf == w.idOf && w'.running == w.running
  {
    w' := w;
    if r.id in w.pending {
      var ticket := w.pending[r.id];
      w' := w'.(pending := w'.pending - {r.id});
      w' := w'.Resolve(ticket, Answered(r));
    }
  }

  lemma DrainOne(w: Worker, ids: set<nat>, id: nat, error: string)
    requires id in w.pending
    ensures Drained(w, ids + {id}, error) == Drained(w, ids, error)[w.pending[id] := FailedWith(error)]
  {
  }

  /** Send the error to every pending sender, in any order. */
  method DrainPending(w: Worker, error: string) returns (w': Worker)
    ensures w' == Exit(w, error)
  {
    var outcomes, sends := w.outcomes, w.sends;
    var rest := w.pending.Keys;
    ghost var done: set<nat> := {};
    NothingDrained(w, error);
    hide Drained;
    while rest != {}
      invariant done + rest == w.pending.Keys
      invariant sends == w.sends + |w.pending.Keys| - |rest|
      invariant outcomes == Drained(w, done, error)
      decreases |rest|
    {
      var id :| id in rest;
      DrainOne(w, done, id, error);
      outcomes, sends := outcomes[w.pending[id] := FailedWith(error)], sends + 1;
      rest, done := rest - {id}, done + {id};
    }
    assert done == w.pending.Keys;
    assert |w.pending.Keys| == |w.pending|;
    w' := w.(pending := map[], running := false, outcomes := outcomes, sends := sends);
  }

  function PendingAt(w: Worker, id: nat): Option<nat> {
    if id in w.pending then Some(w.pending[id]) else None
  }

  method HandleInput(w: Worker, input: Input) returns (w': Worker)
    ensures w' == Effect(w, input)
  {
    w' := w;
    match input {
      case Request(id, ticket, written) =>
        w' := Taken(w, id, ticket);
        if !written {
          w' := w'.Resolve(ticket, FailedWith("failed sending websocket request"));
        } else {
          w' := OnWritten(w', id, ticket);
        }
      case ResponseText(r) =>
        w' := HandleTextResponse(w, r);
        SamePending(w', OnResponse(w, r));
      case _ =>
    }
  }

  lemma SamePending(w: Worker, w': Worker)
    requires forall id :: PendingAt(w, id) == PendingAt(w', id)
    ensures w.pending == w'.pending
  {
    forall id
      ensures id in w.pending <==> id in w'.pending
      ensures id in w.pending ==> w.pending[id] == w'.pending[id]
    {
      assert PendingAt(w, id) == PendingAt(w', id);
    }
  }

  /** The select loop over the inputs in the order it picks them up, until one of them ends it. */
  method ConnectionWorker(inputs: seq<Input>) returns (w: Worker)
    ensures w == Run(inputs)
    ensures w.running <==> forall i :: 0 <= i < |inputs| ==> !EndsConnection(inputs[i])
  {
    hide Effect, Exit, ExitError, EndsConnection;
    RunningIff(inputs);
    w := START;
    var i := 0;
    while i < |inputs|
      invariant 0 <= i <= |inputs| && w == Run(inputs[..i]) && w.running
    {
      var input := inputs[i];
      assert inputs[..i + 1][..i] == inputs[..i];
      w := HandleInput(w, input);
      EffectKeepsRunning(Run(inputs[..i]), input);
      var error := ExitError(input);
      i := i + 1;
      if error.Some? {
        w := DrainPending(w, error.value);
        ExitStops(Run(inputs[..i - 1]), input);
        StoppedStays(inputs, i);
        return;
      }
    }
    assert inputs[..i] == inputs;
  }

  lemma EffectKeepsRunning(w: Worker, input: Input)
    ensures Effect(w, input).running == w.running
  {
  }

  lemma ExitStops(w: Worker, input: Input)
    requires ExitError(input).Some?
    ensures !Next(w, input).running
  {
  }

  lemma {:induction false} StoppedStays(inputs: seq<Input>, n: nat)
    requires n <= |inputs| && !Run(inputs[..n]).running
    ensures Run(inputs) == Run(inputs[..n])
    decreases |inputs|
  {
    if n < |inputs| {
      assert inputs[..|inputs| - 1][..n] == inputs[..n];
      StoppedStays(inputs[..|inputs| - 1], n);
    } else {
      assert inputs[..n] == inputs;
    }
  }

  // ---- accounting ----

  /** Every request carries a sender of its own. */
  ghost predicate FreshTickets(inputs: seq<Input>) {
    forall i, j :: 0 <= i < j < |inputs| && inputs[i].Request? && inputs[j].Request? ==>
      inputs[i].ticket != inputs[j].ticket
  }

  ghost predicate FreshIds(inputs: seq<Input>) {
    forall i, j :: 0 <= i < j < |inputs| && inputs[i].Request? && inputs[j].Request? ==> inputs[i].id != inputs[j].id
  }

  /** No sender is used twice, and every request received is pending or resolved. */
  ghost predicate Counted(w: Worker) {
    w.sends == |w.outcomes| && w.taken == |w.pending| + |w.outcomes|
  }

  /**
    Pending requests sit under their own id and are not resolved, an answer carries the id of the request
    it resolves, and no request received is in neither place.
  */
  ghost predicate Matched(w: Worker) {
    && (forall a :: a in w.pending ==>
          w.pending[a] !in w.outcomes && w.pending[a] in w.idOf && w.idOf[w.pending[a]] == a)
    && (forall t :: t in w.outcomes ==> t in w.idOf)
    && (forall t :: t in w.outcomes && w.outcomes[t].Answered? ==> w.outcomes[t].response.id == w.idOf[t])
    && (forall t :: t in w.idOf ==> t in w.outcomes || (w.idOf[t] in w.pending && w.pending[w.idOf[t]] == t))
  }

  ghost predicate Accounted(w: Worker) { Counted(w) && Matched(w) }

  lemma {:induction false} DrainedCount(w: Worker, ids: set<nat>, error: string)
    requires Accounted(w) && ids <= w.pending.Keys
    ensures |Drained(w, ids, error)| == |w.outcomes| + |ids|
    decreases |ids|
  {
    hide Drained;
    if ids == {} {
      NothingDrained(w, error);
    } else {
      var id :| id in ids;
      assert ids - {id} + {id} == ids;
      DrainOne(w, ids - {id}, id, error);
      DrainedCount(w, ids - {id}, error);
      NotYetDrained(w, ids - {id}, id, error);
      AddKey(Drained(w, ids - {id}, error), w.pending[id], FailedWith(error));
    }
  }

  lemma NothingDrained(w: Worker, error: string)
    ensures Drained(w, {}, error) == w.outcomes
  {
  }

  lemma NotYetDrained(w: Worker, ids: set<nat>, id: nat, error: string)
    requires Matched(w) && id in w.pending && id !in ids && w.pending[id] !in w.outcomes
    ensures w.pending[id] !in Drained(w, ids, error)
  {
  }

  lemma AddKey<K, V>(m: map<K, V>, k: K, v: V)
    requires k !in m
    ensures |m[k := v]| == |m| + 1
  {
    assert m[k := v].Keys == m.Keys + {k};
    assert |m[k := v].Keys| == |m.Keys| + 1;
  }

  lemma RemoveKey<K, V>(m: map<K, V>, k: K)
    requires k in m
    ensures |m - {k}| == |m| - 1
  {
    assert (m - {k}).Keys == m.Keys - {k};
    assert |(m - {k}).Keys| == |m.Keys| - 1;
  }

  lemma ExitKeepsAccounted(w: Worker, error: string)
    requires Accounted(w)
    ensures Accounted(Exit(w, error))
  {
    assert Counted(Exit(w, error)) by {
      DrainedCount(w, w.pending.Keys, error);
      assert |w.pending.Keys| == |w.pending|;
    }
    ExitKeepsMatched(w, error);
  }

  lemma ExitKeepsMatched(w: Worker, error: string)
    requires Matched(w)
    ensures Matched(Exit(w, error))
  {
    var d := Drained(w, w.pending.Keys, error);
    forall t | t in d ensures t in w.idOf && (d[t].Answered? ==> d[t].response.id == w.idOf[t]) {
      if t !in w.outcomes {
        assert d[t] == FailedWith(error);
      }
    }
  }

  lemma ResponseKeepsAccounted(w: Worker, r: Response)
    requires Accounted(w)
    ensures Accounted(OnResponse(w, r))
  {
    if r.id in w.pending {
      RemoveKey(w.pending, r.id);
      AddKey(w.outcomes, w.pending[r.id], Answered(r));
    }
  }

  /**
    A response resolves the request of its own id, with itself and for good: a second response with that
    id changes nothing, no other request is touched, and the accounting still holds.
  */
  lemma ResponseResolvesOnce(w: Worker, r: Response, again: Response)
    requires Accounted(w) && again.id == r.id
    ensures var w' := OnResponse(w, r);
      && Accounted(w') && OnResponse(w', again) == w'
      && (r.id in w.pending <==> w' != w)
      && (r.id in w.pending ==> w'.outcomes == w.outcomes[w.pending[r.id] := Answered(r)])
      && (r.id in w.pending ==> w.idOf[w.pending[r.id]] == r.id)
      && w'.pending.Keys == w.pending.Keys - {r.id}
      && forall id :: id in w'.pending ==> w'.pending[id] == w.pending[id]
  {
    ResponseKeepsAccounted(w, r);
    hide Counted;
  }

  lemma FreshIdKeepsCounted(w: Worker, id: nat, ticket: nat)
    requires Counted(w) && id !in w.pending
    ensures Counted(OnWritten(Taken(w, id, ticket), id, ticket))
  {
    AddKey(w.pending, id, ticket);
  }

  lemma ReusedIdKeepsCounted(w: Worker, id: nat, ticket: nat)
    requires Counted(w) && id in w.pending && w.pending[id] !in w.outcomes
    ensures Counted(OnWritten(Taken(w, id, ticket), id, ticket))
  {
    AddKey(w.outcomes, w.pending[id], Dropped);
    assert w.pending[id := ticket].Keys == w.pending.Keys;
    assert |w.pending[id := ticket].Keys| == |w.pending.Keys|;
  }

  lemma WrittenKeepsMatched(w: Worker, id: nat, ticket: nat)
    requires Matched(w) && ticket !in w.idOf
    ensures Matched(OnWritten(Taken(w, id, ticket), id, ticket))
  {
  }

  lemma WrittenKeepsAccounted(w: Worker, id: nat, ticket: nat)
    requires Accounted(w) && ticket !in w.idOf
    ensures Accounted(OnWritten(Taken(w, id, ticket), id, ticket))
  {
    WrittenKeepsMatched(w, id, ticket);
    assert id in w.pending ==> w.pending[id] !in w.outcomes;
    hide Counted, Matched, OnWritten, Taken;
    if id in w.pending {
      ReusedIdKeepsCounted(w, id, ticket);
    } else {
      FreshIdKeepsCounted(w, id, ticket);
    }
  }

  lemma FailedWriteKeepsAccounted(w: Worker, id: nat, ticket: nat, error: string)
    requires Accounted(w) && ticket !in w.idOf
    ensures Accounted(Taken(w, id, ticket).Resolve(ticket, FailedWith(error)))
  {
    assert Counted(Taken(w, id, ticket).Resolve(ticket, FailedWith(error))) by {
      AddKey(w.outcomes, ticket, FailedWith(error));
    }
  }

  lemma EffectKeepsAccounted(w: Worker, input: Input)
    requires Accounted(w) && (input.Request? ==> input.ticket !in w.idOf)
    ensures Accounted(Effect(w, input))
  {
    hide Accounted;
    match input {
      case Request(id, ticket, written) =>
        WrittenKeepsAccounted(w, id, ticket);
        FailedWriteKeepsAccounted(w, id, ticket, "failed sending websocket request");
      case ResponseText(r) => ResponseKeepsAccounted(w, r);
      case _ =>
    }
  }

  lemma NextKeepsAccounted(w: Worker, input: Input)
    requires Accounted(w) && (input.Request? ==> input.ticket !in w.idOf)
    ensures Accounted(Next(w, input))
  {
    hide Accounted, Effect, Exit;
    EffectKeepsAccounted(w, input);
    if ExitError(input).Some? {
      ExitKeepsAccounted(Effect(w, input), ExitError(input).value);
    }
  }

  ghost predicate NoneDropped(w: Worker) {
    forall t :: t in w.outcomes ==> w.outcomes[t] != Dropped
  }

  /** Only a request that reuses the id of a pending one destroys a sender unused. */
  lemma NextDropsNothing(w: Worker, input: Input)
    requires NoneDropped(w) && (input.Request? ==> input.id !in w.pending)
    ensures NoneDropped(Next(w, input))
  {
    if w.running && ExitError(input).Some? {
      ExitDropsNothing(Effect(w, input), ExitError(input).value);
    }
  }

  /** A step destroys a sender unused exactly when it is a written request that reuses a pending id. */
  lemma NextDropsIff(w: Worker, input: Input)
    requires NoneDropped(w) && w.running
    ensures NoneDropped(Next(w, input)) <==> !(input.Request? && input.written && input.id in w.pending)
  {
    if input.Request? && input.written && input.id in w.pending {
      assert Next(w, input).outcomes[w.pending[input.id]] == Dropped;
    } else if input.Request? && !input.written {
      ExitDropsNothing(Effect(w, input), ExitError(input).value);
    } else {
      NextDropsNothing(w, input);
    }
  }

  lemma ExitDropsNothing(w: Worker, error: string)
    requires NoneDropped(w)
    ensures NoneDropped(Exit(w, error))
  {
    var d := Drained(w, w.pending.Keys, error);
    forall t | t in d ensures d[t] != Dropped {
      if t !in w.outcomes {
        assert d[t] == FailedWith(error);
      }
    }
  }

  /** What has been sent to a request stays what was sent: nothing resolves it again. */
  lemma OutcomeIsFinal(w: Worker, input: Input, t: nat)
    requires Accounted(w) && (input.Request? ==> input.ticket !in w.idOf)
    requires t in w.outcomes
    ensures t in Next(w, input).outcomes && Next(w, input).outcomes[t] == w.outcomes[t]
  {
    EffectKeepsAccounted(w, input);
    EffectKeepsOutcome(w, input, t);
    if ExitError(input).Some? {
      ExitKeepsOutcome(Effect(w, input), ExitError(input).value, t);
    }
    hide Accounted, Effect, Exit, ExitError;
  }

  lemma EffectKeepsOutcome(w: Worker, input: Input, t: nat)
    requires Matched(w) && (input.Request? ==> input.ticket !in w.idOf)
    requires t in w.outcomes
    ensures t in Effect(w, input).outcomes && Effect(w, input).outcomes[t] == w.outcomes[t]
  {
  }

  lemma ExitKeepsOutcome(w: Worker, error: string, t: nat)
    requires Matched(w) && t in w.outcomes
    ensures t in Exit(w, error).outcomes && Exit(w, error).outcomes[t] == w.outcomes[t]
  {
  }

  /** The requests received are among those the inputs carried. */
  ghost predicate Received(w: Worker, inputs: seq<Input>) {
    forall t :: t in w.idOf ==>
      exists i :: 0 <= i < |inputs| && inputs[i].Request? && inputs[i].ticket == t && inputs[i].id == w.idOf[t]
  }

  lemma EffectIds(w: Worker, input: Input)
    ensures Effect(w, input).idOf == if input.Request? then w.idOf[input.ticket := input.id] else w.idOf
  {
    match input
    case Request(id, ticket, written) =>
      var w' := Taken(w, id, ticket);
      hide Drained;
      assert OnWritten(w', id, ticket).idOf == w'.idOf;
    case ResponseText(r) => assert OnResponse(w, r).idOf == w.idOf;
    case _ =>
  }

  lemma NextIds(w: Worker, input: Input)
    ensures Next(w, input).idOf == if w.running && input.Request? then w.idOf[input.ticket := input.id] else w.idOf
  {
    hide Effect, Drained, ExitError;
    EffectIds(w, input);
  }

  lemma NextReceives(w: Worker, inputs: seq<Input>, input: Input)
    requires Received(w, inputs)
    ensures Received(Next(w, input), inputs + [input])
  {
    NextIds(w, input);
    hide Next;
    var now := inputs + [input];
    forall t | t in Next(w, input).idOf
      ensures exists i :: 0 <= i < |now| && now[i].Request? && now[i].ticket == t && now[i].id == Next(w, input).idOf[t]
    {
      if w.running && input.Request? && t == input.ticket {
        assert now[|inputs|] == input;
      } else {
        assert t in w.idOf && Next(w, input).idOf[t] == w.idOf[t];
        var i :| 0 <= i < |inputs| && inputs[i].Request? && inputs[i].ticket == t && inputs[i].id == w.idOf[t];
        assert now[i] == inputs[i];
      }
    }
  }

  /**
    Over every run of the worker: each sender used at most once, requests received = pending + resolved,
    answers matched by id, nobody pending after the exit, and with fresh ids no sender destroyed unused.
  */
  lemma {:induction false} RunAccounted(inputs: seq<Input>)
    requires FreshTickets(inputs)
    ensures Accounted(Run(inputs)) && Received(Run(inputs), inputs)
    ensures !Run(inputs).running ==> Run(inputs).pending == map[] && Run(inputs).taken == |Run(inputs).outcomes|
    ensures FreshIds(inputs) ==> NoneDropped(Run(inputs))
    decreases |inputs|
  {
    hide Accounted, Received, NoneDropped, Drained, FreshTickets, FreshIds, Effect, ExitError;
    if inputs == [] {
      assert Accounted(START) && Received(START, []) && NoneDropped(START) by { StartIsAccounted(); }
    } else {
      var before, input := inputs[..|inputs| - 1], inputs[|inputs| - 1];
      assert before + [input] == inputs;
      FreshBefore(inputs);
      RunAccounted(before);
      var w := Run(before);
      NewTicket(inputs, w);
      NextKeepsAccounted(w, input);
      NextReceives(w, before, input);
      StoppedIsEmpty(w, input);
      if !Next(w, input).running {
        AllResolved(Next(w, input));
      }
      if FreshIds(inputs) {
        NewId(inputs, w);
        NextDropsNothing(w, input);
      }
    }
  }

  lemma FreshBefore(inputs: seq<Input>)
    requires inputs != []
    ensures FreshTickets(inputs) ==> FreshTickets(inputs[..|inputs| - 1])
    ensures FreshIds(inputs) ==> FreshIds(inputs[..|inputs| - 1])
  {
  }

  lemma StartIsAccounted()
    ensures Accounted(START) && Received(START, []) && NoneDropped(START)
  {
  }

  lemma StoppedIsEmpty(w: Worker, input: Input)
    requires !w.running ==> w.pending == map[]
    ensures !Next(w, input).running ==> Next(w, input).pending == map[]
  {
    EffectKeepsRunning(w, input);
  }

  lemma AllResolved(w: Worker)
    requires Accounted(w) && w.pending == map[]
    ensures w.taken == |w.outcomes|
  {
  }

  lemma NewTicket(inputs: seq<Input>, w: Worker)
    requires inputs != [] && FreshTickets(inputs) && Received(w, inputs[..|inputs| - 1])
    ensures inputs[|inputs| - 1].Request? ==> inputs[|inputs| - 1].ticket !in w.idOf
  {
  }

  lemma NewId(inputs: seq<Input>, w: Worker)
    requires inputs != [] && FreshIds(inputs) && Received(w, inputs[..|inputs| - 1]) && Accounted(w)
    ensures inputs[|inputs| - 1].Request? ==> inputs[|inputs| - 1].id !in w.pending
  {
  }

  /** A request that reuses the id of a pending one takes its place: the older caller never gets an answer. */
  lemma ReusedIdDropsTheOlder(id: nat, r: Response)
    requires r.id == id
    ensures var w := Run([Request(id, 0, true), Request(id, 1, true), ResponseText(r)]);
      w.outcomes[0 := Dropped] == w.outcomes && w.outcomes[1 := Answered(r)] == w.outcomes
  {
    var inputs := [Request(id, 0, true), Request(id, 1, true), ResponseText(r)];
    assert inputs[..2] == [Request(id, 0, true), Request(id, 1, true)];
    assert inputs[..2][..1] == [Request(id, 0, true)];
    assert inputs[..2][..1][..0] == [];
    assert Run(inputs[..2][..1]) == Next(START, inputs[0]);
    assert Run(inputs[..2]) == Next(Run(inputs[..2][..1]), inputs[1]);
    assert Run(inputs) == Next(Run(inputs[..2]), inputs[2]);
  }

  // ---- what each input does ----

  /** What ends the connection: its own end, an error on it, a request to close it, or a message to nobody. */
  predicate EndsConnection(input: Input) {
    || input in {CommandsClosed, Close, BadMessage, CloseFrame, ReadError, EndOfStream}
    || (input.Request? && !input.written)
    || (input.PingTick? && !input.written)
    || (input.PingFrame? && !input.written)
    || (input.EventText? && !input.delivered)
  }

  lemma NextRunning(w: Worker, input: Input)
    ensures Next(w, input).running <==> w.running && !EndsConnection(input)
  {
    hide Effect, Exit;
    EffectKeepsRunning(w, input);
    assert EndsConnection(input) <==> ExitError(input).Some?;
    ExitIsStopped(Effect(w, input));
  }

  lemma ExitIsStopped(w: Worker)
    ensures forall error :: !Exit(w, error).running && Exit(w, error).pending == map[]
  {
  }

  /** The worker runs as long as nothing has ended the connection, and no longer. */
  lemma {:induction false} RunningIff(inputs: seq<Input>)
    ensures Run(inputs).running <==> forall i :: 0 <= i < |inputs| ==> !EndsConnection(inputs[i])
  {
    hide Next, EndsConnection;
    if inputs == [] {
    } else {
      RunningIff(inputs[..|inputs| - 1]);
      NextRunning(Run(inputs[..|inputs| - 1]), inputs[|inputs| - 1]);
    }
  }

  /** While the connection lasts, a request becomes pending, a response resolves its own, nothing else matters. */
  lemma StepMeaning(w: Worker, input: Input)
    requires w.running && !EndsConnection(input)
    ensures var w' := Next(w, input);
      match input
      case Request(id, ticket, _) =>
        && w'.pending == w.pending[id := ticket] && w'.idOf == w.idOf[ticket := id] && w'.taken == w.taken + 1
        && (id !in w.pending ==> w'.outcomes == w.outcomes && w'.sends == w.sends)
        && (id in w.pending ==> w'.outcomes == w.outcomes[w.pending[id] := Dropped] && w'.sends == w.sends + 1)
      case ResponseText(r) =>
        w' == if r.id !in w.pending then w
              else w.(pending := w.pending - {r.id}, sends := w.sends + 1,
                      outcomes := w.outcomes[w.pending[r.id] := Answered(r)])
      case _ => w' == w
  {
    hide Exit;
  }

  /** What the callers are told when the connection ends. */
  function FarewellText(input: Input): string
    requires EndsConnection(input)
  {
    match input
    case Request(_, _, _) => "failed sending websocket request"
    case PingTick(_) => "failed sending ping"
    case PingFrame(_) => "failed sending pong"
    case EventText(_) => "event receiver dropped"
    case BadMessage => "invalid message"
    case CloseFrame => "websocket closed"
    case ReadError => "websocket read error"
    case _ => "websocket connection closed"
  }

  /** The end of the connection tells every pending caller, and the one whose request could not be written. */
  lemma EndMeaning(w: Worker, input: Input, t: nat)
    requires w.running && EndsConnection(input)
    ensures var (w', text) := (Next(w, input), FarewellText(input));
            && w'.pending == map[]
            && (t in w.pending.Values || (input.Request? && t == input.ticket) ==>
                  t in w'.outcomes && w'.outcomes[t] == FailedWith(text))
            && (t !in w.pending.Values && !(input.Request? && t == input.ticket) ==>
                  (t in w'.outcomes <==> t in w.outcomes) && (t in w.outcomes ==> w'.outcomes[t] == w.outcomes[t]))
  {
    var text := FarewellText(input);
    assert ExitError(input) == Some(text);
    var before := Effect(w, input);
    assert before.pending == w.pending;
    DrainedAt(before, t, text);
    hide Drained, ExitError;
  }

  lemma DrainedAt(w: Worker, t: nat, error: string)
    ensures var d := Drained(w, w.pending.Keys, error);
            && (t in w.pending.Values ==> t in d && d[t] == FailedWith(error))
            && (t !in w.pending.Values ==> (t in d <==> t in w.outcomes) && (t in w.outcomes ==> d[t] == w.outcomes[t]))
  {
    if t in w.pending.Values {
      var id :| id in w.pending && w.pending[id] == t;
      assert id in w.pending.Keys;
    }
  }

  /**
    Over every run: the first input that ends the connection gives its text to every request then pending,
    and what comes after it is not looked at any more.
  */
  lemma FirstEndTellsEveryone(a: seq<Input>, input: Input, b: seq<Input>, t: nat)
    requires (forall i :: 0 <= i < |a| ==> !EndsConnection(a[i])) && EndsConnection(input)
    ensures var (before, after) := (Run(a), Run(a + [input] + b));
            && after == Run(a + [input]) && !after.running && after.pending == map[]
            && (t in before.pending.Values ==>
                  t in after.outcomes && after.outcomes[t] == FailedWith(FarewellText(input)))
  {
    RunningIff(a);
    hide Next, EndsConnection;
    assert (a + [input])[..|a|] == a && (a + [input] + b)[..|a| + 1] == a + [input];
    EndMeaning(Run(a), input, t);
    NextRunning(Run(a), input);
    StoppedStays(a + [input] + b, |a| + 1);
  }
}

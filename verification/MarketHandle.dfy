/**
  The shared object behind one market (gateway/orderbook/src/market.rs). Each method marked as a
  section runs under one lock or is one atomic operation; it performs exactly one step of FanOut, so
  every interleaving of sections is a run of FanOut.
*/
module MarketHandles {
  import opened Base
  import opened OrderBook
  import opened BookSession
  import opened FanOut

  /** Every open channel got the message once, behind its queue; the closed ones are forgotten. */
  ghost predicate OpenServed(before: map<nat, Subscriber>, after: map<nat, Subscriber>, m: Message) {
    && (forall id :: id in after <==> id in before && before[id].open)
    && (forall id :: id in after ==> Served(before[id], after[id], [m]))
  }

  class MarketHandle {
    const depth: nat
    const state: OrderBookState
    var seqCounter: nat
    var nextSubscriberId: nat
    var subscribers: map<nat, Subscriber>
    ghost var books: seq<Book>
    ghost var stamps: map<nat, nat>
    ghost var worker: Worker

    ghost predicate Valid()
      reads this, state
    {
      books != [] && books[|books| - 1] == state.View()
    }

    ghost function View(): State
      reads this
    {
      State(depth, books, stamps, seqCounter, worker, nextSubscriberId, subscribers)
    }

    constructor (depth: nat)
      ensures Valid() && fresh(state) && View() == Start(depth)
    {
      this.depth := depth;
      state := new OrderBookState();
      seqCounter, nextSubscriberId, subscribers := 1, 1, map[];
      books, stamps, worker := [EMPTY], map[], Idle;
    }

    /** An atomic counter; the stamp records the number of book changes so far. */
    method NextSeq() returns (n: nat)
      requires Valid()
      modifies this`seqCounter, this`stamps
      ensures Valid() && n == old(seqCounter)
      ensures View() == old(View()).TakeSeq()
    {
      n := seqCounter;
      seqCounter := seqCounter + 1;
      stamps := stamps[n := |books| - 1];
    }

    /** Section: send to every channel, collect the closed ones, then forget them. */
    method Emit(m: Message)
      modifies this`subscribers
      ensures OpenServed(old(subscribers), subscribers, m)
      ensures subscribers == EmitTo(old(subscribers), m)
    {
      hide Delivered, EmitTo, OpenServed;
      var before := subscribers;
      var stale: set<nat> := {};
      var rest := before.Keys;
      while rest != {}
        invariant rest <= before.Keys && stale <= before.Keys - rest
        invariant subscribers.Keys == before.Keys
        invariant forall id :: id in rest ==> subscribers[id] == before[id]
        invariant forall id :: id in before && id !in rest ==>
                    (id in stale <==> !before[id].open)
                    && (before[id].open ==> subscribers[id] == Delivered(before[id], m))
        decreases |rest|
      {
        var id :| id in rest;
        rest := rest - {id};
        if subscribers[id].open {
          subscribers := subscribers[id := Delivered(subscribers[id], m)];
        } else {
          stale := stale + {id};
        }
      }
      SentAll(before, subscribers, stale, m);
      subscribers := subscribers - stale;
      ServedAll(before, m);
    }

    /** Section: register a channel under a fresh id. */
    method Register() returns (id: nat)
      requires Valid()
      modifies this`nextSubscriberId, this`subscribers
      ensures Valid() && id == old(nextSubscriberId)
      ensures View() == Next(old(View()), FanOut.Register)
      ensures subscribers == old(subscribers)[id := Subscriber(Unread, [], true)]
    {
      id := nextSubscriberId;
      nextSubscriberId := id + 1;
      subscribers := subscribers[id := Subscriber(Unread, [], true)];
    }

    /** Section: the snapshot under the read lock, if there is one; the caller's first read is recorded. */
    method ReadSnapshotMessage(id: nat) returns (m: Option<Message>)
      requires Valid() && id in subscribers && subscribers[id].first == Unread
      modifies this`seqCounter, this`stamps, this`subscribers
      ensures Valid() && View() == Next(old(View()), ReadSnapshot(id))
      ensures var first := if m.None? then NothingYet else Got(m.value);
              subscribers == old(subscribers)[id := old(subscribers)[id].(first := first)]
      ensures m.None? <==> old(IsEmpty(state.View()))
      ensures m.Some? ==> m.value == SnapshotMessage(old(seqCounter), state.lastTs, Depth(state.View(), depth))
    {
      hide Depth, FromSnapshot, AfterDelta, EmitTo;
      if state.bids == map[] && state.asks == map[] {
        subscribers := subscribers[id := subscribers[id].(first := NothingYet)];
        return None;
      }
      var seqNo := NextSeq();
      var view := state.DepthView(depth);
      var message := SnapshotMessage(seqNo, state.lastTs, view);
      subscribers := subscribers[id := subscribers[id].(first := Got(message))];
      m := Some(message);
    }

    method Subscribe() returns (id: nat, m: Option<Message>)
      requires Valid()
      modifies this
      ensures Valid() && id == old(nextSubscriberId)
      ensures View() == Run(old(View()), [FanOut.Register, ReadSnapshot(id)])
      ensures var first := if m.None? then NothingYet else Got(m.value);
              subscribers == old(subscribers)[id := Subscriber(first, [], true)]
    {
      hide Depth, Run, AfterDelta, FromSnapshot, EmitTo;
      id := Register();
      m := ReadSnapshotMessage(id);
      RunTwo(old(View()), FanOut.Register, ReadSnapshot(id));
    }

    /** Section: replace the book under the write lock. */
    method ResetState(snap: Snapshot)
      requires Valid() && worker == Idle
      modifies state, this`books, this`worker
      ensures Valid() && View() == Next(old(View()), LoadSnapshot(snap))
    {
      state.ResetFromSnapshot(snap.bids, snap.asks, snap.ts);
      books := books + [state.View()];
      worker := Loaded;
    }

    /** Section: depth and sequence number under the read lock. */
    method PrepareSnapshot(sourceTs: nat) returns (m: Message)
      requires Valid() && worker == Loaded && sourceTs == state.lastTs
      modifies this`seqCounter, this`stamps, this`worker
      ensures Valid() && View() == Next(old(View()), NumberSnapshot) && worker == Ready(m)
    {
      hide Depth, AfterDelta, FromSnapshot, EmitTo;
      var view := state.DepthView(depth);
      var seqNo := NextSeq();
      m := SnapshotMessage(seqNo, sourceTs, view);
      worker := Ready(m);
    }

    /** A fetched snapshot is loaded, numbered and sent. */
    method LoadAndEmit(snap: Snapshot)
      requires Valid() && worker == Idle
      modifies this, state
      ensures Valid() && View() == Run(old(View()), [LoadSnapshot(snap), NumberSnapshot, EmitReady])
      ensures state.View() == FromSnapshot(snap.bids, snap.asks, snap.ts)
      ensures var view := Depth(state.View(), depth);
              OpenServed(old(subscribers), subscribers, SnapshotMessage(old(seqCounter), snap.ts, view))
    {
      hide Depth, Run, AfterDelta, EmitTo;
      ResetState(snap);
      var m := PrepareSnapshot(snap.ts);
      Emit(m);
      worker := Idle;
      RunThree(old(View()), LoadSnapshot(snap), NumberSnapshot, EmitReady);
    }

    /** Section: apply under the write lock and take the view of the result. */
    method ApplyLocked(d: BookDelta) returns (outcome: ApplyOutcome, view: DepthView, sourceTs: nat)
      requires Valid() && worker == Idle
      modifies state, this`books, this`worker
      ensures Valid() && View() == Next(old(View()), Apply(d)) && outcome == Outcome(old(state.View()), d)
      ensures state.View() == AfterDelta(old(state.View()), d)
      ensures outcome == Applied ==>
                && worker == Changed(sourceTs, d.minTs, d.maxTs, view)
                && view == Depth(state.View(), depth) && sourceTs == d.maxTs
    {
      hide Depth, AfterDelta, FromSnapshot, EmitTo, Outcome;
      AppliedOrNot(state.View(), d);
      outcome := state.ApplyDelta(d);
      view := state.DepthView(depth);
      sourceTs := state.lastTs;
      if outcome == Applied {
        books := books + [state.View()];
        worker := Changed(sourceTs, d.minTs, d.maxTs, view);
      }
    }

    /** Section: the number of an update is taken after the lock was released. */
    method PrepareUpdate(sourceTs: nat, minTs: nat, maxTs: nat, view: DepthView) returns (m: Message)
      requires Valid() && worker == Changed(sourceTs, minTs, maxTs, view)
      modifies this`seqCounter, this`stamps, this`worker
      ensures Valid() && View() == Next(old(View()), NumberUpdate) && worker == Ready(m)
      ensures m == UpdateMessage(old(seqCounter), sourceTs, minTs, maxTs, view)
    {
      var seqNo := NextSeq();
      m := UpdateMessage(seqNo, sourceTs, minTs, maxTs, view);
      worker := Ready(m);
    }

    /** One upstream delta: applied, numbered and sent; a gap is reported and a stale delta dropped. */
    method HandleDelta(d: BookDelta) returns (outcome: ApplyOutcome)
      requires Valid() && worker == Idle
      modifies this, state
      ensures Valid() && outcome == Outcome(old(state.View()), d)
      ensures View() == Run(old(View()), [Apply(d), NumberUpdate, EmitReady])
      ensures outcome == Outcome(old(state.View()), d) && state.View() == AfterDelta(old(state.View()), d)
      ensures outcome != Applied ==> View() == old(View())
      ensures outcome == Applied ==>
                var message := UpdateMessage(old(seqCounter), d.maxTs, d.minTs, d.maxTs, Depth(state.View(), depth));
                OpenServed(old(subscribers), subscribers, message)
    {
      hide Depth, Run, AfterDelta, FromSnapshot, EmitTo;
      var view, sourceTs;
      outcome, view, sourceTs := ApplyLocked(d);
      if outcome == Applied {
        var m := PrepareUpdate(sourceTs, d.minTs, d.maxTs, view);
        Emit(m);
        worker := Idle;
      }
      RunThree(old(View()), Apply(d), NumberUpdate, EmitReady);
    }

    /** Section: forget a subscriber. */
    method Unsubscribe(id: nat)
      requires Valid()
      modifies this`subscribers
      ensures Valid() && View() == Next(old(View()), FanOut.Unsubscribe(id))
    {
      subscribers := subscribers - {id};
    }
  }

  lemma AppliedOrNot(b: Book, d: BookDelta)
    ensures if Outcome(b, d) == Applied then AfterDelta(b, d).lastTs == d.maxTs else AfterDelta(b, d) == b
  {
  }

  lemma SentAll(before: map<nat, Subscriber>, after: map<nat, Subscriber>, stale: set<nat>, m: Message)
    requires stale <= before.Keys && after.Keys == before.Keys
    requires forall id :: id in before ==>
               (id in stale <==> !before[id].open) && (before[id].open ==> after[id] == Delivered(before[id], m))
    ensures after - stale == EmitTo(before, m)
  {
    hide Delivered;
  }

  lemma ServedAll(before: map<nat, Subscriber>, m: Message)
    ensures OpenServed(before, EmitTo(before, m), m)
  {
    forall id
      ensures id in EmitTo(before, m) <==> id in before && before[id].open
      ensures id in EmitTo(before, m) ==> Served(before[id], EmitTo(before, m)[id], [m])
    {
      EmitServesOpenChannels(before, m, id);
    }
  }

  lemma RunTwo(s: State, a: Step, b: Step)
    ensures Run(s, [a, b]) == Next(Next(s, a), b)
  {
    hide Next;
    assert Run(s, [a]) == Next(s, a) by {
      assert [a][..0] == [];
    }
    assert [a, b][..1] == [a];
  }

  lemma RunThree(s: State, a: Step, b: Step, c: Step)
    ensures Run(s, [a, b, c]) == Next(Next(Next(s, a), b), c)
  {
    hide Next;
    assert [a, b, c][..2] == [a, b];
    RunTwo(s, a, b);
  }
}

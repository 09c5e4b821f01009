/**
  Handing out one shared handle per key: Supervisor::ensure_market (gateway/orderbook/src/market.rs)
  and Supervisor::ensure_series (gateway/chart/src/market.rs), which bootstraps before it spawns.
  Every step is one critical section of one caller; callers interleave freely.
*/
module Supervisor {
  import opened Base

  type Key = string

  datatype Caller =
    | Looking(key: Key)
    | Holding(key: Key, handle: nat)
    | Inserted(key: Key, handle: nat)
    | Booted(key: Key, handle: nat)
    | Failing(key: Key, handle: nat)
    | Returned(key: Key, handle: nat)
    | Refused

  datatype State = State(
    directory: set<Key>,
    handles: map<Key, nat>,
    spawned: seq<(Key, nat)>,
    nextHandle: nat,
    callers: map<nat, Caller>)
  {
    function Move(c: nat, caller: Caller): State {
      this.(callers := callers[c := caller])
    }
  }

  function Start(directory: set<Key>): State {
    State(directory, map[], [], 0, map[])
  }

  datatype Step =
    | Arrive(caller: nat, key: Key)
    | Lookup(caller: nat)
    | InsertIfAbsent(caller: nat)
    | Bootstrap(caller: nat, ok: bool)
    | Remove(caller: nat)
    | Spawn(caller: nat)

  function Next(s: State, step: Step): State {
    var c := step.caller;
    if step.Arrive? then
      if c in s.callers then s else s.Move(c, Looking(step.key))
    else if c !in s.callers then s
    else
      match (step, s.callers[c])
      case (Lookup(_), Looking(k)) =>
        if k in s.handles then s.Move(c, Returned(k, s.handles[k]))
        else if k !in s.directory then s.Move(c, Refused)
        else s.Move(c, Holding(k, s.nextHandle)).(nextHandle := s.nextHandle + 1)
      case (InsertIfAbsent(_), Holding(k, h)) =>
        if k in s.handles then s.Move(c, Returned(k, s.handles[k]))
        else s.Move(c, Inserted(k, h)).(handles := s.handles[k := h])
      case (Bootstrap(_, ok), Inserted(k, h)) =>
        s.Move(c, if ok then Booted(k, h) else Failing(k, h))
      case (Remove(_), Failing(k, h)) =>
        s.Move(c, Refused).(handles := s.handles - {k})
      case (Spawn(_), Booted(k, h)) =>
        s.Move(c, Returned(k, h)).(spawned := s.spawned + [(k, h)])
      case _ => s
  }

  function Run(s: State, steps: seq<Step>): State {
    if steps == [] then s else Next(Run(s, steps[..|steps| - 1]), steps[|steps| - 1])
  }

  /** A caller between inserting a handle and spawning or removing it. */
  predicate Owns(caller: Caller) {
    caller.Inserted? || caller.Booted? || caller.Failing?
  }

  ghost predicate OwnersMapped(s: State) {
    forall c :: c in s.callers && Owns(s.callers[c]) ==>
      s.callers[c].key in s.handles && s.handles[s.callers[c].key] == s.callers[c].handle
  }

  ghost predicate OwnersApart(s: State) {
    forall c, d :: c in s.callers && d in s.callers && c != d && Owns(s.callers[c]) && Owns(s.callers[d])
      ==> s.callers[c].key != s.callers[d].key
  }

  ghost predicate SpawnedUnowned(s: State) {
    forall c, i :: c in s.callers && Owns(s.callers[c]) && 0 <= i < |s.spawned|
      ==> s.spawned[i].0 != s.callers[c].key
  }

  ghost predicate SpawnedMapped(s: State) {
    forall i :: 0 <= i < |s.spawned| ==> s.spawned[i].0 in s.handles && s.handles[s.spawned[i].0] == s.spawned[i].1
  }

  ghost predicate SpawnedOnce(s: State) {
    forall i, j :: 0 <= i < j < |s.spawned| ==> s.spawned[i].0 != s.spawned[j].0
  }

  ghost predicate Inv(s: State) {
    OwnersMapped(s) && OwnersApart(s) && SpawnedUnowned(s) && SpawnedMapped(s) && SpawnedOnce(s)
  }

  lemma NextKeepsOwners(s: State, step: Step)
    requires OwnersMapped(s) && OwnersApart(s)
    ensures OwnersMapped(Next(s, step)) && OwnersApart(Next(s, step))
  {
  }

  lemma NextKeepsSpawnedUnowned(s: State, step: Step)
    requires OwnersApart(s) && SpawnedUnowned(s) && SpawnedMapped(s)
    ensures SpawnedUnowned(Next(s, step))
  {
  }

  lemma NextKeepsSpawned(s: State, step: Step)
    requires OwnersMapped(s) && SpawnedUnowned(s) && SpawnedMapped(s) && SpawnedOnce(s)
    ensures SpawnedMapped(Next(s, step)) && SpawnedOnce(Next(s, step))
  {
  }

  lemma NextKeepsInv(s: State, step: Step)
    requires Inv(s)
    ensures Inv(Next(s, step))
  {
    hide Next;
    NextKeepsOwners(s, step);
    NextKeepsSpawnedUnowned(s, step);
    NextKeepsSpawned(s, step);
  }

  lemma {:induction false} RunKeepsInv(directory: set<Key>, steps: seq<Step>)
    ensures Inv(Run(Start(directory), steps))
  {
    if steps == [] {
    } else {
      RunKeepsInv(directory, steps[..|steps| - 1]);
      NextKeepsInv(Run(Start(directory), steps[..|steps| - 1]), steps[|steps| - 1]);
    }
  }

  /** Whatever the interleaving, no key is ever spawned twice. */
  lemma SpawnedAtMostOnce(directory: set<Key>, steps: seq<Step>, i: nat, j: nat)
    requires i < |Run(Start(directory), steps).spawned| && j < |Run(Start(directory), steps).spawned|
    requires Run(Start(directory), steps).spawned[i].0 == Run(Start(directory), steps).spawned[j].0
    ensures i == j
  {
    hide Run, Next;
    RunKeepsInv(directory, steps);
  }

  lemma {:induction false} RunAppends(s: State, a: seq<Step>, b: seq<Step>)
    ensures Run(s, a + b) == Run(Run(s, a), b)
  {
    hide Next;
    if b == [] {
      assert a + b == a;
    } else {
      RunAppends(s, a, b[..|b| - 1]);
      assert (a + b)[..|a + b| - 1] == a + b[..|b| - 1];
    }
  }

  lemma {:induction false} SpawnedOnlyGrows(s: State, steps: seq<Step>)
    ensures s.spawned <= Run(s, steps).spawned
  {
    if steps == [] {
    } else {
      SpawnedOnlyGrows(s, steps[..|steps| - 1]);
    }
  }

  /** A spawned handle is the one in the map, and stays there in every later state. */
  lemma SpawnedStays(directory: set<Key>, steps: seq<Step>, later: seq<Step>, i: nat)
    requires i < |Run(Start(directory), steps).spawned|
    ensures var (k, h) := Run(Start(directory), steps).spawned[i];
            var s' := Run(Start(directory), steps + later);
            k in s'.handles && s'.handles[k] == h
  {
    hide Run, Next;
    RunAppends(Start(directory), steps, later);
    SpawnedOnlyGrows(Run(Start(directory), steps), later);
    RunKeepsInv(directory, steps + later);
  }

  /** A failed bootstrap removes its own handle and no other. */
  lemma RemoveOnlyOwn(directory: set<Key>, steps: seq<Step>, c: nat)
    requires var s := Run(Start(directory), steps); c in s.callers && s.callers[c].Failing?
    ensures var s := Run(Start(directory), steps);
            var s' := Next(s, Remove(c));
            && s.callers[c].key in s.handles && s.handles[s.callers[c].key] == s.callers[c].handle
            && s'.handles == s.handles - {s.callers[c].key}
            && s'.spawned == s.spawned
            && (forall i :: 0 <= i < |s.spawned| ==> s.spawned[i].0 != s.callers[c].key)
  {
    hide Run;
    RunKeepsInv(directory, steps);
  }

  ghost predicate KnownKeys(s: State) {
    && (forall k :: k in s.handles ==> k in s.directory)
    && (forall c :: c in s.callers && (s.callers[c].Holding? || Owns(s.callers[c])) ==> s.callers[c].key in s.directory)
  }

  /**
    A key with a handle is a known one, so it does not matter that ensure_market looks for a handle
    first and ensure_series for the key.
  */
  lemma {:induction false} HandlesAreKnown(directory: set<Key>, steps: seq<Step>)
    ensures Run(Start(directory), steps).directory == directory && KnownKeys(Run(Start(directory), steps))
  {
    if steps == [] {
    } else {
      HandlesAreKnown(directory, steps[..|steps| - 1]);
    }
  }

  ghost predicate NoFailure(steps: seq<Step>) {
    forall i :: 0 <= i < |steps| && steps[i].Bootstrap? ==> steps[i].ok
  }

  /** A mapped handle is spawned already, or one caller is on its way to do so. */
  ghost predicate Attended(s: State, k: Key)
    requires k in s.handles
  {
    (k, s.handles[k]) in s.spawned
    || exists c :: c in s.callers && Owns(s.callers[c]) && s.callers[c].key == k
  }

  lemma AttendedStays(s: State, step: Step, k: Key)
    requires Inv(s) && k in Next(s, step).handles && (k in s.handles ==> Attended(s, k))
    ensures Attended(Next(s, step), k)
  {
    var s' := Next(s, step);
    if k !in s.handles {
      assert step.caller in s'.callers && Owns(s'.callers[step.caller]) && s'.callers[step.caller].key == k;
    } else if (k, s.handles[k]) in s.spawned {
      var i :| 0 <= i < |s.spawned| && s.spawned[i] == (k, s.handles[k]);
      assert s'.spawned[i] == (k, s'.handles[k]);
    } else {
      var c :| c in s.callers && Owns(s.callers[c]) && s.callers[c].key == k;
      if step.Spawn? && step.caller == c && s.callers[c].Booted? {
        assert s'.spawned[|s.spawned|] == (k, s'.handles[k]);
      } else if !step.Arrive? && step.caller == c && s.callers[c].Failing? && step.Remove? {
        assert false;
      } else {
        assert c in s'.callers && Owns(s'.callers[c]) && s'.callers[c].key == k;
      }
    }
  }

  lemma {:induction false} RunAttended(directory: set<Key>, steps: seq<Step>, k: Key)
    requires k in Run(Start(directory), steps).handles
    ensures Attended(Run(Start(directory), steps), k)
  {
    hide Next;
    if steps == [] {
    } else {
      var init := steps[..|steps| - 1];
      RunKeepsInv(directory, init);
      if k in Run(Start(directory), init).handles {
        RunAttended(directory, init, k);
      }
      AttendedStays(Run(Start(directory), init), steps[|steps| - 1], k);
    }
  }

  // ---- which returned handles are live ----

  /** The handles that their own callers removed after a failed bootstrap. */
  function Abandoned(directory: set<Key>, steps: seq<Step>): set<nat> {
    if steps == [] then {}
    else
      var init := steps[..|steps| - 1];
      Abandoned(directory, init) + Dropped(Run(Start(directory), init), steps[|steps| - 1])
  }

  /** The handle that a step removes, if it removes one. */
  function Dropped(s: State, step: Step): set<nat> {
    if step.Remove? && step.caller in s.callers && s.callers[step.caller].Failing?
    then {s.callers[step.caller].handle} else {}
  }

  predicate HasHandle(caller: Caller) {
    !caller.Looking? && !caller.Refused?
  }

  ghost predicate HandlesCreated(s: State, gone: set<nat>) {
    && (forall c :: c in s.callers && HasHandle(s.callers[c]) ==> s.callers[c].handle < s.nextHandle)
    && (forall k :: k in s.handles ==> s.handles[k] < s.nextHandle && s.handles[k] !in gone)
    && (forall h :: h in gone ==> h < s.nextHandle)
  }

  ghost predicate MappedOnce(s: State) {
    forall k, k' :: k in s.handles && k' in s.handles && s.handles[k] == s.handles[k'] ==> k == k'
  }

  /** A handle that is not inserted yet is known to its creator only. */
  ghost predicate HeldApart(s: State, gone: set<nat>) {
    HeldUnmapped(s, gone) && HeldByOne(s)
  }

  ghost predicate HeldUnmapped(s: State, gone: set<nat>) {
    forall c :: c in s.callers && s.callers[c].Holding? ==>
      s.callers[c].handle !in s.handles.Values && s.callers[c].handle !in gone
  }

  ghost predicate HeldByOne(s: State) {
    forall c, d :: c in s.callers && d in s.callers && s.callers[c].Holding? && s.callers[d].Holding? ==>
      s.callers[c].handle == s.callers[d].handle ==> c == d
  }

  ghost predicate MappedOrGone(s: State, gone: set<nat>) {
    forall c :: c in s.callers && s.callers[c].Returned? ==> Live(s, c) || s.callers[c].handle in gone
  }

  /** The handle that the caller got is the one in the map. */
  ghost predicate Live(s: State, c: nat)
    requires c in s.callers && HasHandle(s.callers[c])
  {
    s.callers[c].key in s.handles && s.handles[s.callers[c].key] == s.callers[c].handle
  }

  ghost predicate HandlesInv(s: State, gone: set<nat>) {
    HandlesCreated(s, gone) && MappedOnce(s) && HeldApart(s, gone) && MappedOrGone(s, gone)
  }

  lemma NextKeepsCreated(s: State, step: Step, gone: set<nat>)
    requires HandlesCreated(s, gone) && MappedOnce(s) && HeldApart(s, gone) && OwnersMapped(s)
    ensures HandlesCreated(Next(s, step), gone + Dropped(s, step))
  {
  }

  lemma NextKeepsMappedOnce(s: State, step: Step, gone: set<nat>)
    requires MappedOnce(s) && HeldApart(s, gone)
    ensures MappedOnce(Next(s, step))
  {
  }

  lemma NextKeepsHeldApart(s: State, step: Step, gone: set<nat>)
    requires HandlesCreated(s, gone) && HeldApart(s, gone) && OwnersMapped(s)
    ensures HeldApart(Next(s, step), gone + Dropped(s, step))
  {
    NextKeepsHeldUnmapped(s, step, gone);
    NextKeepsHeldByOne(s, step, gone);
    hide Next, HeldUnmapped, HeldByOne, Dropped;
  }

  lemma NextKeepsHeldUnmapped(s: State, step: Step, gone: set<nat>)
    requires HandlesCreated(s, gone) && HeldApart(s, gone) && OwnersMapped(s)
    ensures HeldUnmapped(Next(s, step), gone + Dropped(s, step))
  {
  }

  lemma NextKeepsHeldByOne(s: State, step: Step, gone: set<nat>)
    requires HandlesCreated(s, gone) && HeldByOne(s)
    ensures HeldByOne(Next(s, step))
  {
  }

  lemma NextKeepsMappedOrGone(s: State, step: Step, gone: set<nat>)
    requires MappedOrGone(s, gone) && OwnersMapped(s)
    ensures MappedOrGone(Next(s, step), gone + Dropped(s, step))
  {
  }

  lemma {:induction false} RunKeepsHandles(directory: set<Key>, steps: seq<Step>)
    ensures HandlesInv(Run(Start(directory), steps), Abandoned(directory, steps))
  {
    if steps == [] {
    } else {
      var (init, step) := (steps[..|steps| - 1], steps[|steps| - 1]);
      RunKeepsHandles(directory, init);
      RunKeepsInv(directory, init);
      var (s, gone) := (Run(Start(directory), init), Abandoned(directory, init));
      hide Next, Run, Dropped, HandlesCreated, MappedOnce, HeldApart, MappedOrGone;
      NextKeepsCreated(s, step, gone);
      NextKeepsMappedOnce(s, step, gone);
      NextKeepsHeldApart(s, step, gone);
      NextKeepsMappedOrGone(s, step, gone);
    }
  }

  /**
    Over every run, the handle a caller got is the mapped one if and only if the caller that created it
    did not remove it after a failed bootstrap; and then it is spawned or about to be.
  */
  lemma ReturnedIsLiveIff(directory: set<Key>, steps: seq<Step>, c: nat)
    requires c in Run(Start(directory), steps).callers && Run(Start(directory), steps).callers[c].Returned?
    ensures var s := Run(Start(directory), steps);
            && (Live(s, c) <==> s.callers[c].handle !in Abandoned(directory, steps))
            && (Live(s, c) ==> Attended(s, s.callers[c].key))
  {
    hide Run, Next, Abandoned;
    var s := Run(Start(directory), steps);
    RunKeepsHandles(directory, steps);
    if Live(s, c) {
      RunAttended(directory, steps, s.callers[c].key);
    }
  }

  /** Callers of one key whose handles were not abandoned share one handle, spawned or about to be. */
  lemma CallersShareLiveHandle(directory: set<Key>, steps: seq<Step>, c: nat, d: nat)
    requires var s := Run(Start(directory), steps);
             && c in s.callers && d in s.callers && s.callers[c].Returned? && s.callers[d].Returned?
             && s.callers[c].key == s.callers[d].key
             && s.callers[c].handle !in Abandoned(directory, steps)
             && s.callers[d].handle !in Abandoned(directory, steps)
    ensures var s := Run(Start(directory), steps);
            && s.callers[c].handle == s.callers[d].handle
            && s.callers[c].key in s.handles && s.handles[s.callers[c].key] == s.callers[c].handle
            && Attended(s, s.callers[c].key)
  {
    hide Run, Abandoned;
    ReturnedIsLiveIff(directory, steps, c);
    ReturnedIsLiveIff(directory, steps, d);
  }

  /** Where no bootstrap fails, which is how the order book gateway works, no handle is ever abandoned. */
  lemma {:induction false} NoFailureAbandonsNothing(directory: set<Key>, steps: seq<Step>)
    requires NoFailure(steps)
    ensures Abandoned(directory, steps) == {}
    ensures forall c :: c in Run(Start(directory), steps).callers ==>
              !Run(Start(directory), steps).callers[c].Failing?
  {
    if steps == [] {
    } else {
      NoFailureAbandonsNothing(directory, steps[..|steps| - 1]);
    }
  }

  /**
    With a bootstrap that can fail the condition is not met by itself: a second caller may be given a
    handle that is then removed and never spawned.
  */
  lemma FailedBootstrapOrphansHandle(k: Key)
    ensures var s := Run(Start({k}), RaceOf(k));
            && 1 in s.callers && s.callers[1] == Returned(k, 0)
            && k !in s.handles && s.spawned == []
            && 0 in Abandoned({k}, RaceOf(k))
  {
    hide Run, Next, Abandoned, RaceOf;
    RaceUnfolds(k);
    RaceBegins(k);
    RaceEnds(k);
    ReturnedIsLiveIff({k}, RaceOf(k), 1);
  }

  lemma RaceBegins(k: Key)
    ensures Next(Next(Next(Start({k}), Arrive(0, k)), Lookup(0)), InsertIfAbsent(0))
         == State({k}, map[k := 0], [], 1, map[0 := Inserted(k, 0)])
  {
  }

  lemma RaceEnds(k: Key)
    ensures var s5 := Next(Next(State({k}, map[k := 0], [], 1, map[0 := Inserted(k, 0)]), Arrive(1, k)), Lookup(1));
            Next(Next(s5, Bootstrap(0, false)), Remove(0))
            == State({k}, map[], [], 1, map[0 := Refused, 1 := Returned(k, 0)])
  {
  }

  /** The second caller asks while the first one's bootstrap is under way. */
  function RaceOf(k: Key): seq<Step> {
    [Arrive(0, k), Lookup(0), InsertIfAbsent(0), Arrive(1, k), Lookup(1), Bootstrap(0, false), Remove(0)]
  }

  lemma RaceUnfolds(k: Key)
    ensures var s3 := Next(Next(Next(Start({k}), Arrive(0, k)), Lookup(0)), InsertIfAbsent(0));
            var s5 := Next(Next(s3, Arrive(1, k)), Lookup(1));
            Run(Start({k}), RaceOf(k)) == Next(Next(s5, Bootstrap(0, false)), Remove(0))
  {
    hide Next;
    var (s0, steps) := (Start({k}), RaceOf(k));
    assert Run(s0, steps[..0]) == s0;
    RunUnfolds(s0, steps, 1);
    RunUnfolds(s0, steps, 2);
    RunUnfolds(s0, steps, 3);
    RunUnfolds(s0, steps, 4);
    RunUnfolds(s0, steps, 5);
    RunUnfolds(s0, steps, 6);
    RunUnfolds(s0, steps, 7);
    assert steps[..7] == steps;
  }

  lemma RunUnfolds(s: State, steps: seq<Step>, n: nat)
    requires 0 < n <= |steps|
    ensures Run(s, steps[..n]) == Next(Run(s, steps[..n - 1]), steps[n - 1])
  {
    assert steps[..n][..n - 1] == steps[..n - 1];
  }

  // ---- the object ----

  /** Steps of other callers. */
  predicate Others(steps: seq<Step>, c: nat) {
    forall i :: 0 <= i < |steps| ==> steps[i].caller != c
  }

  lemma {:induction false} OthersKeep(s: State, steps: seq<Step>, c: nat)
    requires Others(steps, c) && c in s.callers
    ensures c in Run(s, steps).callers && Run(s, steps).callers[c] == s.callers[c]
  {
    if steps == [] {
    } else {
      OthersKeep(s, steps[..|steps| - 1], c);
    }
  }

  lemma {:induction false} RunKeepsDirectory(s: State, steps: seq<Step>)
    ensures Run(s, steps).directory == s.directory
  {
    if steps == [] {
    } else {
      RunKeepsDirectory(s, steps[..|steps| - 1]);
    }
  }

  /** What other callers do while this one waits, before its lookup and after each of its sections. */
  datatype Waits = Waits(arriving: seq<Step>, lookedUp: seq<Step>, inserted: seq<Step>, booted: seq<Step>) {
    predicate OfOthers(c: nat) {
      Others(arriving, c) && Others(lookedUp, c) && Others(inserted, c) && Others(booted, c)
    }
  }

  /** The sections of one call with the other callers' steps between them, up to each section. */
  function ToLookup(c: nat, key: Key, w: Waits): seq<Step> {
    [Arrive(c, key)] + w.arriving + [Lookup(c)]
  }

  function ToInsert(c: nat, key: Key, w: Waits): seq<Step> {
    ToLookup(c, key, w) + w.lookedUp + [InsertIfAbsent(c)]
  }

  function ToBootstrap(c: nat, key: Key, ok: bool, w: Waits): seq<Step> {
    ToInsert(c, key, w) + w.inserted + [Bootstrap(c, ok)]
  }

  function Schedule(c: nat, key: Key, ok: bool, w: Waits): seq<Step> {
    ToBootstrap(c, key, ok, w) + w.booted + [if ok then Spawn(c) else Remove(c)]
  }

  lemma Arrived(s: State, key: Key, c: nat)
    requires c !in s.callers
    ensures Run(s, [Arrive(c, key)]) == s.Move(c, Looking(key))
  {
    assert [Arrive(c, key)][..0] == [];
  }

  /**
    What one call does by itself: it returns the mapped handle, refuses an unknown key, or creates a handle,
    which it maps and spawns, or takes back if its bootstrap fails.
  */
  lemma LoneCall(s: State, key: Key, ok: bool, c: nat)
    requires c !in s.callers
    ensures var s' := Next(Next(Next(s, Arrive(c, key)), Lookup(c)), InsertIfAbsent(c));
            var after := Next(Next(s', Bootstrap(c, ok)), if ok then Spawn(c) else Remove(c));
            after == if key in s.handles then s.Move(c, Returned(key, s.handles[key]))
                     else if key !in s.directory then s.Move(c, Refused)
                     else if ok then
                       State(s.directory, s.handles[key := s.nextHandle], s.spawned + [(key, s.nextHandle)],
                             s.nextHandle + 1, s.callers[c := Returned(key, s.nextHandle)])
                     else
                       State(s.directory, s.handles, s.spawned, s.nextHandle + 1, s.callers[c := Refused])
  {
    hide Next;
    Asks(s, key, c);
    if key in s.handles || key !in s.directory {
      var s2 := Next(Next(s, Arrive(c, key)), Lookup(c));
      Settled(s2, InsertIfAbsent(c));
      Settled(s2, Bootstrap(c, ok));
      Settled(s2, if ok then Spawn(c) else Remove(c));
    } else {
      var s2 := s.Move(c, Holding(key, s.nextHandle)).(nextHandle := s.nextHandle + 1);
      Creates(s2, key, s.nextHandle, ok, c);
      assert s.handles[key := s.nextHandle] - {key} == s.handles;
    }
  }

  lemma Asks(s: State, key: Key, c: nat)
    requires c !in s.callers
    ensures Next(Next(s, Arrive(c, key)), Lookup(c))
         == if key in s.handles then s.Move(c, Returned(key, s.handles[key]))
            else if key !in s.directory then s.Move(c, Refused)
            else s.Move(c, Holding(key, s.nextHandle)).(nextHandle := s.nextHandle + 1)
  {
    var s1 := s.Move(c, Looking(key));
    assert Next(s, Arrive(c, key)) == s1;
    assert forall caller :: s1.Move(c, caller) == s.Move(c, caller);
  }

  lemma Settled(s: State, step: Step)
    requires step.caller in s.callers && (s.callers[step.caller].Returned? || s.callers[step.caller].Refused?)
    ensures Next(s, step) == s
  {
  }

  lemma Creates(s: State, key: Key, h: nat, ok: bool, c: nat)
    requires c in s.callers && s.callers[c] == Holding(key, h) && key !in s.handles
    ensures Next(Next(Next(s, InsertIfAbsent(c)), Bootstrap(c, ok)), if ok then Spawn(c) else Remove(c))
         == if ok then
              s.Move(c, Returned(key, h)).(handles := s.handles[key := h], spawned := s.spawned + [(key, h)])
            else
              s.Move(c, Refused).(handles := s.handles[key := h] - {key})
  {
    var s1 := s.Move(c, Inserted(key, h)).(handles := s.handles[key := h]);
    assert Next(s, InsertIfAbsent(c)) == s1;
    var s2 := s1.Move(c, if ok then Booted(key, h) else Failing(key, h));
    assert Next(s1, Bootstrap(c, ok)) == s2;
    assert forall caller :: s2.Move(c, caller) == s.Move(c, caller).(handles := s.handles[key := h]);
  }

  /** A caller that was overtaken between its sections gets the handle that is there now. */
  lemma OvertakenGetsMapped(s: State, c: nat)
    requires c in s.callers && s.callers[c].Holding? && s.callers[c].key in s.handles
    ensures Next(s, InsertIfAbsent(c)) == s.Move(c, Returned(s.callers[c].key, s.handles[s.callers[c].key]))
  {
  }

  /** Awaiting and then performing a section extends the run by both. */
  lemma RunFurther(s: State, done: seq<Step>, others: seq<Step>, step: Step)
    ensures Run(s, done + others + [step]) == Next(Run(Run(s, done), others), step)
  {
    hide Next;
    RunAppends(s, done, others);
    assert (done + others + [step])[..|done + others|] == done + others;
  }

  /**
    The supervisor; each section runs under the lock of the map and performs one step of its caller. The
    fields `spawned` and `callers` record what the sections did.
  */
  class SeriesSupervisor {
    const directory: set<Key>
    var handles: map<Key, nat>
    var nextHandle: nat
    var spawned: seq<(Key, nat)>
    var callers: map<nat, Caller>

    function View(): State
      reads this
    {
      State(directory, handles, spawned, nextHandle, callers)
    }

    constructor (directory: set<Key>)
      ensures View() == Start(directory)
    {
      this.directory, handles, nextHandle := directory, map[], 0;
      spawned, callers := [], map[];
    }

    /** Section: an existing handle, an unknown symbol, or a newly created handle. */
    method LookupOrCreate(key: Key, c: nat) returns (existing: Option<nat>, created: Option<nat>)
      requires c in callers && callers[c] == Looking(key)
      modifies this
      ensures View() == Next(old(View()), Lookup(c))
      ensures existing == if key in old(handles) then Some(old(handles)[key]) else None
      ensures created == if key in old(handles) || key !in directory then None else Some(old(nextHandle))
      ensures c in callers && callers[c] == if existing.Some? then Returned(key, existing.value)
                                            else if created.Some? then Holding(key, created.value) else Refused
    {
      existing, created := None, None;
      if key in handles {
        existing := Some(handles[key]);
        callers := callers[c := Returned(key, handles[key])];
      } else if key !in directory {
        callers := callers[c := Refused];
      } else {
        created := Some(nextHandle);
        callers := callers[c := Holding(key, nextHandle)];
        nextHandle := nextHandle + 1;
      }
    }

    /** Section: insert unless another caller was faster. */
    method InsertUnlessPresent(key: Key, handle: nat, c: nat) returns (existing: Option<nat>)
      requires c in callers && callers[c] == Holding(key, handle)
      modifies this
      ensures View() == Next(old(View()), InsertIfAbsent(c))
      ensures existing == if key in old(handles) then Some(old(handles)[key]) else None
      ensures c in callers
           && callers[c] == if existing.Some? then Returned(key, existing.value) else Inserted(key, handle)
    {
      if key in handles {
        callers := callers[c := Returned(key, handles[key])];
        return Some(handles[key]);
      }
      handles := handles[key := handle];
      callers := callers[c := Inserted(key, handle)];
      existing := None;
    }

    /** The bootstrap itself is not under the lock. */
    method FinishBootstrap(key: Key, handle: nat, ok: bool, c: nat)
      requires c in callers && callers[c] == Inserted(key, handle)
      modifies this`callers
      ensures View() == Next(old(View()), Bootstrap(c, ok))
      ensures c in callers && callers[c] == if ok then Booted(key, handle) else Failing(key, handle)
    {
      callers := callers[c := if ok then Booted(key, handle) else Failing(key, handle)];
    }

    /** Section: give up a handle whose bootstrap failed, or start its worker. */
    method Conclude(key: Key, handle: nat, ok: bool, c: nat)
      requires c in callers && callers[c] == if ok then Booted(key, handle) else Failing(key, handle)
      modifies this
      ensures View() == Next(old(View()), if ok then Spawn(c) else Remove(c))
      ensures c in callers && callers[c] == if ok then Returned(key, handle) else Refused
    {
      if ok {
        spawned := spawned + [(key, handle)];
        callers := callers[c := Returned(key, handle)];
      } else {
        handles := handles - {key};
        callers := callers[c := Refused];
      }
    }

    /** Waiting for the lock or for the bootstrap lets the other callers run. */
    method Await(others: seq<Step>, c: nat)
      requires Others(others, c) && c in callers
      modifies this
      ensures View() == Run(old(View()), others)
      ensures c in callers && callers[c] == old(callers[c])
    {
      var s := Run(View(), others);
      OthersKeep(View(), others, c);
      RunKeepsDirectory(View(), others);
      handles, spawned, nextHandle, callers := s.handles, s.spawned, s.nextHandle, s.callers;
    }

    /**
      One call among others: it performs the steps of its schedule in order and returns early only with
      a handle or a refusal in hand. The result is what its steps brought it.
    */
    method EnsureSeries(key: Key, ok: bool, c: nat, w: Waits) returns (handle: Option<nat>, ghost done: seq<Step>)
      requires c !in callers && w.OfOthers(c)
      modifies this
      ensures done <= Schedule(c, key, ok, w) && View() == Run(old(View()), done)
      ensures c in callers && match callers[c]
                              case Returned(k, h) => k == key && handle == Some(h)
                              case Refused => handle == None
                              case _ => false
      ensures key in directory && ok ==> handle.Some?
    {
      hide Next, Run, Others;
      ghost var start := View();
      Arrived(start, key, c);
      callers := callers[c := Looking(key)];

      Await(w.arriving, c);
      var existing, created := LookupOrCreate(key, c);
      done := ToLookup(c, key, w);
      RunFurther(start, [Arrive(c, key)], w.arriving, Lookup(c));
      if created.None? {
        return existing, done;
      }

      Await(w.lookedUp, c);
      existing := InsertUnlessPresent(key, created.value, c);
      RunFurther(start, done, w.lookedUp, InsertIfAbsent(c));
      done := ToInsert(c, key, w);
      if existing.Some? {
        return existing, done;
      }

      Await(w.inserted, c);
      FinishBootstrap(key, created.value, ok, c);
      RunFurther(start, done, w.inserted, Bootstrap(c, ok));
      done := ToBootstrap(c, key, ok, w);

      Await(w.booted, c);
      Conclude(key, created.value, ok, c);
      RunFurther(start, done, w.booted, if ok then Spawn(c) else Remove(c));
      done := Schedule(c, key, ok, w);
      handle := if ok then created else None;
    }
  }
}

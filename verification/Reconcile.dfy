/**
 * The agent's half of probe assignment: a pushed list replaces the running probe
 * loops, leaving unchanged ones alone. Handles are numbered in the order they
 * are spawned.
 */
module Reconcile {
  import opened Basics
  import opened ProbeTables

  const MAX_PING_TASKS := 64

  datatype Loop = Loop(task: Wanted, handle: nat)

  /** The first 64 of a longer list, and all of any other. */
  function Truncated(wanted: seq<Wanted>): (list: seq<Wanted>)
    ensures list <= wanted && |list| == if |wanted| <= 64 then |wanted| else 64
  {
    if |wanted| > MAX_PING_TASKS then wanted[..MAX_PING_TASKS] else wanted
  }

  /** No task and no handle occurs twice. */
  predicate Unique(running: seq<Loop>) {
    forall i, j :: 0 <= i < j < |running| ==>
      running[i].task.id != running[j].task.id && running[i].handle != running[j].handle
  }

  function Running(running: seq<Loop>): set<int> { set r <- running :: r.task.id }

  function Handles(running: seq<Loop>): set<nat> { set r <- running :: r.handle }

  /** The loops a push leaves alone, in their order. */
  function Kept(running: seq<Loop>, wanted: seq<Wanted>): seq<Loop> {
    if running == [] then []
    else
      var r := running[|running| - 1];
      Kept(running[..|running| - 1], wanted) + if r.task in wanted then [r] else []
  }

  lemma {:induction false} KeptIsWhatIsWanted(running: seq<Loop>, wanted: seq<Wanted>)
    requires Unique(running)
    ensures Unique(Kept(running, wanted))
    ensures forall r :: r in Kept(running, wanted) <==> r in running && r.task in wanted
  {
    if running != [] {
      KeptIsWhatIsWanted(running[..|running| - 1], wanted);
    }
  }

  lemma {:induction false} NothingIsDroppedIfAllIsWanted(running: seq<Loop>, wanted: seq<Wanted>)
    requires forall r <- running :: r.task in wanted
    ensures Kept(running, wanted) == running
  {
    if running != [] {
      var n := |running| - 1;
      assert running[n] in running;
      NothingIsDroppedIfAllIsWanted(running[..n], wanted);
      assert running == running[..n] + [running[n]];
    }
  }

  /** The handles a push aborts. */
  function Dropped(running: seq<Loop>, wanted: seq<Wanted>): set<nat> {
    set r <- running | r.task !in wanted :: r.handle
  }

  /** Every handle ever spawned is running or aborted, never both; no task runs twice. */
  ghost predicate Sound(running: seq<Loop>, spawned: nat, aborted: set<nat>) {
    && Unique(running)
    && (forall h <- aborted :: h < spawned && h !in Handles(running))
    && (forall r <- running :: r.handle < spawned)
    && forall h: nat :: h < spawned ==> h in Handles(running) || h in aborted
  }

  lemma RetainingStaysSound(running: seq<Loop>, spawned: nat, aborted: set<nat>, wanted: seq<Wanted>)
    requires Sound(running, spawned, aborted)
    ensures Sound(Kept(running, wanted), spawned, aborted + Dropped(running, wanted))
  {
    var kept := Kept(running, wanted);
    KeptIsWhatIsWanted(running, wanted);
    forall h: nat | h < spawned && h in Handles(running) ensures h in Handles(kept) || h in Dropped(running, wanted) {
      var r :| r in running && r.handle == h;
      if r.task in wanted { assert r in kept; }
    }
    forall h | h in Dropped(running, wanted) ensures h < spawned && h !in Handles(kept) {
      var r :| r in running && r.task !in wanted && r.handle == h;
      forall q | q in kept ensures q.handle != h {
        assert q in running;
      }
    }
  }

  lemma SpawningStaysSound(running: seq<Loop>, spawned: nat, aborted: set<nat>, task: Wanted)
    requires Sound(running, spawned, aborted) && forall r <- running :: r.task.id != task.id
    ensures Sound(running + [Loop(task, spawned)], spawned + 1, aborted)
  {
    HandlesOfOneMore(running, Loop(task, spawned));
  }

  class Agent {
    var running: seq<Loop>
    var spawned: nat
    var aborted: set<nat>

    ghost predicate Valid()
      reads this
    {
      Sound(running, spawned, aborted)
    }

    constructor ()
      ensures Valid() && running == [] && aborted == {}
    {
      running, spawned, aborted := [], 0, {};
    }

    /** Keeps the loops still wanted as they are and aborts the others. */
    method Retain(wanted: seq<Wanted>)
      requires Valid()
      modifies this`running, this`aborted
      ensures Valid() && running == Kept(old(running), wanted)
      ensures aborted == old(aborted) + Dropped(old(running), wanted)
    {
      var was, kept := running, [];
      var dead := aborted;
      for i := 0 to |was|
        invariant kept == Kept(was[..i], wanted)
        invariant dead == aborted + Dropped(was[..i], wanted)
      {
        assert was[..i + 1] == was[..i] + [was[i]];
        if was[i].task in wanted {
          kept := kept + [was[i]];
        } else {
          dead := dead + {was[i].handle};
        }
      }
      assert was[..|was|] == was;
      RetainingStaysSound(was, spawned, aborted, wanted);
      running, aborted := kept, dead;
    }

    /** Starts a loop for each task of the list that has none. */
    method Start(list: seq<Wanted>)
      requires Valid()
      modifies this`running, this`spawned
      ensures Valid() && running == Spawn(old(running), old(spawned), list)
    {
      hide Sound, Spawn;
      for i := 0 to |list|
        invariant Sound(running, spawned, aborted)
        invariant Spawn(running, spawned, list[i..]) == Spawn(old(running), old(spawned), list)
      {
        var task := list[i];
        assert list[i..][0] == task && list[i..][1..] == list[i + 1..];
        SpawnTakesTheFirst(running, spawned, list[i..]);
        if !exists r <- running :: r.task.id == task.id {
          SpawningStaysSound(running, spawned, aborted, task);
          running := running + [Loop(task, spawned)];
          spawned := spawned + 1;
        }
      }
      SpawnTakesTheFirst(running, spawned, list[|list|..]);
    }

    method Respawn(wanted: seq<Wanted>)
      requires Valid()
      modifies this
      ensures Valid() && running == Respawned(old(running), old(spawned), wanted)
      ensures aborted == old(aborted) + Dropped(old(running), Truncated(wanted))
    {
      var list := wanted;
      if |list| > MAX_PING_TASKS {
        list := list[..MAX_PING_TASKS];
      }
      Retain(list);
      Start(list);
    }
  }

  lemma HandlesOfOneMore(running: seq<Loop>, l: Loop)
    ensures Handles(running + [l]) == Handles(running) + {l.handle}
    ensures Running(running + [l]) == Running(running) + {l.task.id}
  {
  }

  // ---- what a push leaves running ----

  /** Starts a loop for each task whose id does not run yet, in list order. */
  function Spawn(running: seq<Loop>, next: nat, wanted: seq<Wanted>): seq<Loop>
    decreases wanted
  {
    if wanted == [] then running
    else if wanted[0].id in Running(running) then Spawn(running, next, wanted[1..])
    else Spawn(running + [Loop(wanted[0], next)], next + 1, wanted[1..])
  }

  lemma SpawnTakesTheFirst(running: seq<Loop>, next: nat, wanted: seq<Wanted>)
    ensures wanted == [] ==> Spawn(running, next, wanted) == running
    ensures wanted != [] ==>
      Spawn(running, next, wanted) ==
        if exists r <- running :: r.task.id == wanted[0].id then Spawn(running, next, wanted[1..])
        else Spawn(running + [Loop(wanted[0], next)], next + 1, wanted[1..])
  {
  }

  function Respawned(running: seq<Loop>, next: nat, wanted: seq<Wanted>): seq<Loop> {
    Spawn(Kept(running, Truncated(wanted)), next, Truncated(wanted))
  }

  lemma OneMoreStaysUnique(running: seq<Loop>, l: Loop)
    requires Unique(running)
    requires forall r <- running :: r.task.id != l.task.id && r.handle != l.handle
    ensures Unique(running + [l])
  {
  }

  /** What a spawn adds to what runs: a task of the list under a new handle. */
  ghost predicate Extends(before: seq<Loop>, after: seq<Loop>, next: nat, wanted: seq<Wanted>) {
    (forall r <- before :: r in after) && (forall r <- after :: r in before || (r.task in wanted && next <= r.handle))
  }

  lemma ExtendsThroughOneMore(running: seq<Loop>, after: seq<Loop>, next: nat, wanted: seq<Wanted>)
    requires wanted != []
    ensures Extends(running + [Loop(wanted[0], next)], after, next + 1, wanted[1..]) ==> Extends(running, after, next, wanted)
    ensures Extends(running, after, next, wanted[1..]) ==> Extends(running, after, next, wanted)
    ensures Ids(wanted) == {wanted[0].id} + Ids(wanted[1..])
  {
  }

  lemma {:induction false} SpawnAddsWhatIsMissing(running: seq<Loop>, next: nat, wanted: seq<Wanted>)
    requires Unique(running) && forall r <- running :: r.handle < next
    ensures var after := Spawn(running, next, wanted);
            && Unique(after) && Extends(running, after, next, wanted)
            && Running(after) == Running(running) + Ids(wanted)
    decreases wanted
  {
    if wanted != [] {
      var rest, one, after := wanted[1..], Loop(wanted[0], next), Spawn(running, next, wanted);
      ExtendsThroughOneMore(running, after, next, wanted);
      if wanted[0].id in Running(running) {
        SpawnAddsWhatIsMissing(running, next, rest);
      } else {
        forall r | r in running ensures r.task.id != wanted[0].id { assert r.task.id in Running(running); }
        HandlesOfOneMore(running, one);
        OneMoreStaysUnique(running, one);
        hide Unique, Extends, Running, Ids;
        SpawnAddsWhatIsMissing(running + [one], next + 1, rest);
      }
    }
  }

  lemma {:induction false} UniqueLoopsCount(running: seq<Loop>)
    requires Unique(running)
    ensures |running| == |Running(running)|
  {
    if running != [] {
      var n := |running| - 1;
      UniqueLoopsCount(running[..n]);
      assert running == running[..n] + [running[n]];
      HandlesOfOneMore(running[..n], running[n]);
      assert running[n].task.id !in Running(running[..n]);
    }
  }

  lemma {:induction false} ListHasNoMoreIdsThanTasks(wanted: seq<Wanted>)
    ensures |Ids(wanted)| <= |wanted|
  {
    if wanted != [] {
      ListHasNoMoreIdsThanTasks(wanted[1..]);
      assert Ids(wanted) == {wanted[0].id} + Ids(wanted[1..]);
    }
  }

  /**
   * After a push exactly the tasks of the (truncated) list run, at most 64 of
   * them; every loop runs a task as the list has it; those that already did keep
   * their handles, and any other loop is new.
   */
  lemma ReconciliationIsExact(running: seq<Loop>, next: nat, wanted: seq<Wanted>)
    requires Unique(running) && forall r <- running :: r.handle < next
    ensures var list, after := Truncated(wanted), Respawned(running, next, wanted);
            && Unique(after) && Running(after) == Ids(list) && |after| <= MAX_PING_TASKS
            && (forall r <- after :: r.task in list)
            && (forall r <- running :: r.task in list ==> r in after)
            && (forall r <- after :: r in running || next <= r.handle)
  {
    var list, kept := Truncated(wanted), Kept(running, Truncated(wanted));
    KeptIsWhatIsWanted(running, list);
    SpawnAddsWhatIsMissing(kept, next, list);
    var after := Respawned(running, next, wanted);
    forall id | id in Running(kept) ensures id in Ids(list) {
      var r :| r in kept && r.task.id == id;
      assert r.task in list;
    }
    UniqueLoopsCount(after);
    ListHasNoMoreIdsThanTasks(list);
  }

  lemma {:induction false} NothingSpawnsIfAllRun(running: seq<Loop>, next: nat, wanted: seq<Wanted>)
    requires forall w <- wanted :: w.id in Running(running)
    ensures Spawn(running, next, wanted) == running
    decreases wanted
  {
    if wanted != [] {
      assert wanted[0] in wanted;
      NothingSpawnsIfAllRun(running, next, wanted[1..]);
    }
  }

  /** Pushing the same list again restarts nothing. */
  lemma ReconciliationIsIdempotent(running: seq<Loop>, next: nat, again: nat, wanted: seq<Wanted>)
    requires Unique(running) && forall r <- running :: r.handle < next
    ensures var after := Respawned(running, next, wanted); Respawned(after, again, wanted) == after
  {
    var list, after := Truncated(wanted), Respawned(running, next, wanted);
    ReconciliationIsExact(running, next, wanted);
    NothingIsDroppedIfAllIsWanted(after, list);
    forall w | w in list ensures w.id in Running(after) { assert w.id in Ids(list); }
    NothingSpawnsIfAllRun(after, again, list);
  }

  /**
   * Hub and agent together: whatever the panel did, a list pushed to an agent
   * leaves exactly the probes assigned to its node running; the agent's limit
   * drops none of them.
   */
  lemma AssignedProbesAllRun(ops: seq<Op>, node: int, list: seq<Wanted>, running: seq<Loop>, next: nat)
    requires IsListFor(ProbeTables.Run(EMPTY, ops), node, list)
    requires Unique(running) && forall r <- running :: r.handle < next
    ensures Running(Respawned(running, next, list)) == TasksOf(ProbeTables.Run(EMPTY, ops).links, node)
  {
    PushedListsFitTheAgent(ops, node, list);
    ReconciliationIsExact(running, next, list);
  }
}

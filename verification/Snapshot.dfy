/**
 * The cached node list every browser stream shares, one slot per audience. A
 * panel write changes the state and then, as a separate step, invalidates the
 * cache; a frame is built under the cache's lock from state read there, while
 * further writes may already be under way.
 */
module Snapshot {
  import opened Basics

  const TTL_MS := 1_900

  /** A frame: whom it is for, which version of the state it shows and when it was built. */
  datatype Frame = Frame(full: bool, version: nat, builtAt: int)

  /** A slot as it is stored: the millisecond its frame counts from, and the frame, empty at first. */
  datatype Slot = Slot(stamp: i64, frame: Option<Frame>)

  predicate Fresh(stamp: i64, now: i64) { 0 <= SatSub(now, stamp) < TTL_MS }

  function Index(full: bool): nat { if full then 1 else 0 }

  /** The cache, the version of the state its frames show, and the steps taken so far. */
  class Cache {
    const slots: array<Slot>
    var version: nat
    ghost var steps: seq<Step>

    ghost predicate Valid()
      reads this, slots
    {
      && slots.Length == 2 && Legal(steps)
      && Run(steps).slots == slots[..] && Run(steps).version == version && Run(steps).building == None
    }

    constructor ()
      ensures fresh(slots) && Valid() && steps == [] && version == 0
    {
      slots := new Slot[2](_ => Slot(0, None));
      version, steps := 0, [];
      new;
      assert slots[..] == START.slots;
    }

    ghost method Log(step: Step)
      requires Legal(steps) && Can(Run(steps), step)
      modifies this`steps
      ensures Legal(steps) && steps == old(steps) + [step] && Run(steps) == Do(Run(old(steps)), step)
    {
      assert (steps + [step])[..|steps|] == steps;
      steps := steps + [step];
    }

    /** A panel write changes what frames show; invalidating is a step of its own. */
    method Write()
      requires Valid()
      modifies this
      ensures Valid() && steps == old(steps) + [Step.Write] && version == old(version) + 1
      ensures slots[..] == old(slots[..])
    {
      version := version + 1;
      Log(Step.Write);
    }

    /** Serves the cached frame while it is fresh, and otherwise one built now. */
    method LiveSnapshot(full: bool, now: i64) returns (frame: Option<Frame>)
      requires Valid()
      modifies this`steps, slots
      ensures Valid()
      ensures Fresh(old(slots[Index(full)]).stamp, now) ==>
        && frame == old(slots[Index(full)]).frame && slots[..] == old(slots[..])
        && steps == old(steps) + [Begin(full, now)]
        && Serves(Run(old(steps)), Begin(full, now)) == Sent(full, now, frame)
      ensures !Fresh(old(slots[Index(full)]).stamp, now) ==>
        && frame == Some(Frame(full, version, now)) && slots[..] == old(slots[..])[Index(full) := Slot(now, frame)]
        && steps == old(steps) + [Begin(full, now)] + [Finish]
        && Legal(old(steps) + [Begin(full, now)]) && Run(old(steps) + [Begin(full, now)]).building.Some?
        && Serves(Run(old(steps) + [Begin(full, now)]), Finish) == Sent(full, now, frame)
      ensures var slot := old(slots[if full then 1 else 0]);
              if slot.stamp <= now < slot.stamp + 1_900 then frame == slot.frame
              else frame == Some(Frame(full, version, now))
      ensures PastTheEpoch(now) ==>
        frame.Some? && frame.value.full == full && frame.value.version >= Run(steps).settled
        && 0 <= now - frame.value.builtAt < TTL_MS
    {
      var slot := Index(full);
      CacheStaysCoherent(steps);
      assert slots[slot] == Run(steps).slots[slot];
      Log(Begin(full, now));
      if Fresh(slots[slot].stamp, now) {
        return slots[slot].frame;
      }
      frame := Some(Frame(full, version, now));
      slots[slot] := Slot(now, frame);
      Log(Finish);
    }

    method Invalidate()
      requires Valid()
      modifies this`steps, slots
      ensures Valid() && steps == old(steps) + [Step.Invalidate] && slots[..] == Stale(old(slots[..]))
    {
      for i := 0 to slots.Length
        invariant steps == old(steps)
        invariant forall j :: 0 <= j < i ==> slots[j] == old(slots[j]).(stamp := 0)
        invariant forall j :: i <= j < slots.Length ==> slots[j] == old(slots[j])
      {
        slots[i] := slots[i].(stamp := 0);
      }
      Log(Step.Invalidate);
    }
  }

  /** Both slots' stamps set to zero. */
  function Stale(slots: seq<Slot>): seq<Slot>
    requires |slots| == 2
  {
    [slots[0].(stamp := 0), slots[1].(stamp := 0)]
  }

  // ---- interleaved steps ----

  /** A build holds the lock from `Begin` to `Finish`; only writes may come between. */
  datatype Step = Write | Invalidate | Begin(full: bool, now: i64) | Finish

  datatype Build = Build(full: bool, now: i64, version: nat)

  /**
   * `version` counts writes; `settled` is the version at the last invalidation, so
   * every write up to it has been invalidated for.
   */
  datatype State = State(slots: seq<Slot>, version: nat, settled: nat, building: Option<Build>)

  const START := State([Slot(0, None), Slot(0, None)], 0, 0, None)

  predicate Can(s: State, step: Step) {
    && |s.slots| == 2
    && match step
       case Write => true
       case Invalidate => s.building.None?
       case Begin(_, _) => s.building.None?
       case Finish => s.building.Some?
  }

  function Do(s: State, step: Step): (s': State)
    requires Can(s, step)
    ensures |s'.slots| == 2
  {
    match step
    case Write => s.(version := s.version + 1)
    case Invalidate => s.(slots := Stale(s.slots), settled := s.version)
    case Begin(full, now) =>
      if Fresh(s.slots[Index(full)].stamp, now) then s else s.(building := Some(Build(full, now, s.version)))
    case Finish =>
      var b := s.building.value;
      s.(slots := s.slots[Index(b.full) := Slot(b.now, Some(Frame(b.full, b.version, b.now)))], building := None)
  }

  /** What a step hands to a viewer, with the viewer's audience and the time it asked. */
  datatype Served = Nothing | Sent(full: bool, now: i64, frame: Option<Frame>)

  function Serves(s: State, step: Step): Served
    requires Can(s, step)
  {
    match step
    case Begin(full, now) =>
      if Fresh(s.slots[Index(full)].stamp, now) then Sent(full, now, s.slots[Index(full)].frame) else Nothing
    case Finish => var b := s.building.value; Sent(b.full, b.now, Some(Frame(b.full, b.version, b.now)))
    case _ => Nothing
  }

  predicate Legal(steps: seq<Step>)
    decreases steps, 0
  {
    steps == [] || (Legal(steps[..|steps| - 1]) && Can(Run(steps[..|steps| - 1]), steps[|steps| - 1]))
  }

  function Run(steps: seq<Step>): (s: State)
    requires Legal(steps)
    ensures |s.slots| == 2
    decreases steps, 1
  {
    if steps == [] then START else Do(Run(steps[..|steps| - 1]), steps[|steps| - 1])
  }

  /** A slot shows everything settled, or is marked to be rebuilt; it never shows another audience's frame. */
  ghost predicate SlotHolds(slot: Slot, full: bool, settled: nat) {
    && (slot.stamp == 0 || (slot.frame.Some? && slot.frame.value.version >= settled && slot.frame.value.builtAt == slot.stamp))
    && (slot.frame.Some? ==> slot.frame.value.full == full)
  }

  ghost predicate Coherent(s: State) {
    && |s.slots| == 2 && s.settled <= s.version
    && SlotHolds(s.slots[0], false, s.settled) && SlotHolds(s.slots[1], true, s.settled)
    && (s.building.Some? ==> s.building.value.version >= s.settled)
  }

  lemma {:induction false} CacheStaysCoherent(steps: seq<Step>)
    requires Legal(steps)
    ensures Coherent(Run(steps))
  {
    if steps != [] {
      CacheStaysCoherent(steps[..|steps| - 1]);
    }
  }

  /** A zero stamp is out of date to every clock but the first 1900 ms of 1970. */
  predicate PastTheEpoch(now: i64) { now < 0 || TTL_MS <= now }

  /**
   * Whoever asks after a write was invalidated for is sent a frame built from
   * state read after that write, for their own audience, less than 1900 ms old by
   * the clock they asked under.
   */
  lemma ServedFramesAreCurrent(steps: seq<Step>, step: Step)
    requires Legal(steps) && Can(Run(steps), step)
    requires var sent := Serves(Run(steps), step); sent.Sent? && PastTheEpoch(sent.now)
    ensures var s, sent := Run(steps), Serves(Run(steps), step);
            && sent.frame.Some? && sent.frame.value.version >= s.settled
            && sent.frame.value.full == sent.full
            && 0 <= sent.now - sent.frame.value.builtAt < TTL_MS
  {
    CacheStaysCoherent(steps);
  }

  /** Later invalidations only settle more. */
  lemma {:induction false} SettledOnlyGrows(steps: seq<Step>, i: nat)
    requires Legal(steps) && i <= |steps|
    ensures Legal(steps[..i]) && Run(steps[..i]).settled <= Run(steps).settled
    ensures Run(steps[..i]).version <= Run(steps).version
    ensures i < |steps| && steps[i] == Invalidate ==> Run(steps[..i]).version <= Run(steps).settled
  {
    if i == |steps| {
      assert steps[..i] == steps;
    } else {
      var front := steps[..|steps| - 1];
      CacheStaysCoherent(steps);
      CacheStaysCoherent(front);
      SettledOnlyGrows(front, i);
      assert front[..i] == steps[..i];
      if i == |front| { assert steps[..i] == front; } else { assert front[i] == steps[i]; }
    }
  }

  /** In particular: no frame sent after a write was invalidated for predates that write. */
  lemma NoFramePredatesAnInvalidatedWrite(steps: seq<Step>, w: nat, i: nat, step: Step)
    requires Legal(steps) && Can(Run(steps), step)
    requires w < i < |steps| && steps[w] == Write && steps[i] == Invalidate
    requires var sent := Serves(Run(steps), step); sent.Sent? && PastTheEpoch(sent.now)
    ensures Legal(steps[..w]) && Serves(Run(steps), step).frame.Some?
    ensures Serves(Run(steps), step).frame.value.version >= Run(steps[..w]).version + 1
  {
    ServedFramesAreCurrent(steps, step);
    SettledOnlyGrows(steps, i);
    SettledOnlyGrows(steps[..i], w + 1);
    assert steps[..i][..w + 1] == steps[..w + 1] && steps[..w + 1][..w] == steps[..w];
    assert steps[..w + 1][w] == Write;
  }

  /** A stamp in the future, or one just invalidated, is rebuilt; the latter exactly past the epoch. */
  lemma FutureAndInvalidatedStampsAreRebuilt(slot: Slot, now: i64)
    ensures slot.stamp > now ==> !Fresh(slot.stamp, now)
    ensures !Fresh(0, now) <==> PastTheEpoch(now)
  {
  }

  /** Under a clock still at the epoch an invalidated frame is served again. */
  lemma StaleFrameIsServedAtTheEpoch()
    ensures var steps := [Begin(true, 5_000), Finish, Write, Invalidate];
            Legal(steps) && Serves(Run(steps), Begin(true, 100)) == Sent(true, 100, Some(Frame(true, 0, 5_000)))
            && Run(steps).settled == 1
  {
    var a, b, c, d := Begin(true, 5_000), Finish, Write, Invalidate;
    assert [a, b, c, d][..3] == [a, b, c] && [a, b, c][..2] == [a, b] && [a, b][..1] == [a] && [a][..0] == [];
    assert Legal([]) && Legal([a]) && Run([a]) == START.(building := Some(Build(true, 5_000, 0)));
    assert Legal([a, b]) && Run([a, b]).slots == [Slot(0, None), Slot(5_000, Some(Frame(true, 0, 5_000)))];
    assert Legal([a, b, c]) && Run([a, b, c]).version == 1;
  }
}

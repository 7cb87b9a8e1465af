/**
 * The map of connected agents under interleaving. A connection takes its tag and
 * enters the map in two separate steps; it leaves through its teardown, or by an
 * early return that skips the teardown; the panel may retire a node's entry at
 * any moment. Between the steps of one connection any others may run.
 */
module Sessions {
  import opened Basics

  /** `Quit` is the early return from a failed send, which leaves without a teardown. */
  datatype Step = Tagged(node: int) | Inserted(tag: nat) | TornDown(tag: nat) | Quit(tag: nat) | Retired(node: int)

  datatype Phase = Waiting | Serving | Ended | Abandoned

  /** Tags are handed out from zero, so connection `t` is at index `t` of both sequences. */
  datatype State = State(nodes: seq<int>, phases: seq<Phase>, agents: map<int, nat>)

  const EMPTY := State([], [], map[])

  predicate Sized(s: State) { |s.nodes| == |s.phases| }

  predicate Can(s: State, step: Step) {
    Sized(s) &&
    match step
    case Tagged(_) => true
    case Inserted(t) => t < |s.phases| && s.phases[t] == Waiting
    case TornDown(t) => t < |s.phases| && s.phases[t] == Serving
    case Quit(t) => t < |s.phases| && s.phases[t] == Serving
    case Retired(_) => true
  }

  function Do(s: State, step: Step): (s': State)
    requires Can(s, step)
    ensures Sized(s')
  {
    match step
    case Tagged(n) => s.(nodes := s.nodes + [n], phases := s.phases + [Waiting])
    case Inserted(t) => s.(phases := s.phases[t := Serving], agents := s.agents[s.nodes[t] := t])
    case TornDown(t) => s.(phases := s.phases[t := Ended], agents := Released(s.agents, s.nodes[t], t))
    case Quit(t) => s.(phases := s.phases[t := Abandoned])
    case Retired(n) => s.(agents := s.agents - {n})
  }

  /** A teardown removes the entry only while it is still its own. */
  function Released(agents: map<int, nat>, node: int, tag: nat): map<int, nat> {
    if node in agents && agents[node] == tag then agents - {node} else agents
  }

  predicate Legal(trace: seq<Step>)
    decreases trace, 0
  {
    trace == [] || (Legal(trace[..|trace| - 1]) && Can(Run(trace[..|trace| - 1]), trace[|trace| - 1]))
  }

  function Run(trace: seq<Step>): (s: State)
    requires Legal(trace)
    ensures Sized(s)
    decreases trace, 1
  {
    if trace == [] then EMPTY else Do(Run(trace[..|trace| - 1]), trace[|trace| - 1])
  }

  /** The two shared cells: the tag counter and the map. */
  class Hub {
    var next: nat
    var agents: map<int, nat>
    ghost var trace: seq<Step>

    ghost predicate Valid()
      reads this
    {
      Legal(trace) && next == |Run(trace).nodes| && agents == Run(trace).agents
    }

    constructor ()
      ensures Valid() && trace == []
    {
      next, agents, trace := 0, map[], [];
    }

    ghost method Log(step: Step)
      requires Legal(trace) && Can(Run(trace), step)
      modifies this`trace
      ensures Legal(trace) && trace == old(trace) + [step] && Run(trace) == Do(Run(old(trace)), step)
    {
      assert (trace + [step])[..|trace|] == trace;
      trace := trace + [step];
    }

    method Tag(node: int) returns (tag: nat)
      requires Valid()
      modifies this
      ensures Valid() && trace == old(trace) + [Tagged(node)]
      ensures tag == |Run(old(trace)).nodes| && Run(trace).nodes[tag] == node
    {
      tag := next;
      next := next + 1;
      Log(Tagged(node));
    }

    method Insert(node: int, tag: nat)
      requires Valid() && Can(Run(trace), Inserted(tag)) && Run(trace).nodes[tag] == node
      modifies this
      ensures Valid() && trace == old(trace) + [Inserted(tag)]
    {
      agents := agents[node := tag];
      Log(Inserted(tag));
    }

    method Release(node: int, tag: nat) returns (released: bool)
      requires Valid() && Can(Run(trace), TornDown(tag)) && Run(trace).nodes[tag] == node
      modifies this
      ensures Valid() && trace == old(trace) + [TornDown(tag)]
      ensures released == (node in old(agents) && old(agents)[node] == tag)
    {
      Log(TornDown(tag));
      if node !in agents || agents[node] != tag {
        return false;
      }
      agents := agents - {node};
      return true;
    }

    method Retire(node: int)
      requires Valid()
      modifies this
      ensures Valid() && trace == old(trace) + [Retired(node)] && node !in agents
    {
      agents := agents - {node};
      Log(Retired(node));
    }
  }

  // ---- over whole traces ----

  /** Step `i` inserted this session, and nothing since replaced, tore down or retired it. */
  ghost predicate HoldsSince(trace: seq<Step>, nodes: seq<int>, node: int, tag: nat, i: int) {
    && 0 <= i < |trace| && tag < |nodes| && nodes[tag] == node && trace[i] == Inserted(tag)
    && forall j :: i < j < |trace| ==>
      && trace[j] != TornDown(tag) && trace[j] != Retired(node)
      && (trace[j].Inserted? ==> trace[j].tag < |nodes| && nodes[trace[j].tag] != node)
  }

  ghost predicate Holds(trace: seq<Step>, nodes: seq<int>, node: int, tag: nat) {
    exists i :: HoldsSince(trace, nodes, node, tag, i)
  }

  lemma {:induction false} NodesOnlyGrow(trace: seq<Step>, i: nat)
    requires Legal(trace) && i <= |trace|
    ensures Legal(trace[..i]) && Run(trace[..i]).nodes <= Run(trace).nodes
    ensures i < |trace| ==> Can(Run(trace[..i]), trace[i])
  {
    if i < |trace| {
      var front := trace[..|trace| - 1];
      NodesOnlyGrow(front, i);
      assert front[..i] == trace[..i];
      assert i < |front| ==> front[i] == trace[i];
    } else {
      assert trace[..i] == trace;
    }
  }

  lemma {:induction false} StepsNameKnownConnections(trace: seq<Step>)
    requires Legal(trace)
    ensures forall j :: 0 <= j < |trace| && !trace[j].Tagged? && !trace[j].Retired? ==> trace[j].tag < |Run(trace).nodes|
  {
    if trace != [] {
      StepsNameKnownConnections(trace[..|trace| - 1]);
    }
  }

  lemma HoldingSurvives(trace: seq<Step>, node: int, tag: nat)
    requires Legal(trace) && trace != []
    requires var front, last := trace[..|trace| - 1], trace[|trace| - 1];
             && Holds(front, Run(front).nodes, node, tag)
             && last != TornDown(tag) && last != Retired(node)
             && (last.Inserted? ==> Run(front).nodes[last.tag] != node)
    ensures Holds(trace, Run(trace).nodes, node, tag)
  {
    var front := trace[..|trace| - 1];
    NodesOnlyGrow(trace, |trace| - 1);
    var i :| HoldsSince(front, Run(front).nodes, node, tag, i);
    assert HoldsSince(trace, Run(trace).nodes, node, tag, i);
  }

  lemma HoldingWasHeld(trace: seq<Step>, node: int, tag: nat)
    requires Legal(trace) && trace != [] && Holds(trace, Run(trace).nodes, node, tag)
    ensures var front, last := trace[..|trace| - 1], trace[|trace| - 1];
            last == Inserted(tag) || Holds(front, Run(front).nodes, node, tag)
  {
    var front := trace[..|trace| - 1];
    NodesOnlyGrow(trace, |trace| - 1);
    StepsNameKnownConnections(front);
    var i :| HoldsSince(trace, Run(trace).nodes, node, tag, i);
    if i < |front| {
      assert trace[i] == front[i];
      assert HoldsSince(front, Run(front).nodes, node, tag, i);
    }
  }

  /**
   * The map says exactly which session holds each node: the one inserted last,
   * unless its own teardown or an explicit retirement came after. No teardown of
   * any other session, however late, takes an entry away.
   */
  lemma {:induction false} EntryIsTheLastInserted(trace: seq<Step>, node: int, tag: nat)
    requires Legal(trace)
    ensures var s := Run(trace);
            (node in s.agents && s.agents[node] == tag) <==> Holds(trace, s.nodes, node, tag)
  {
    if trace != [] {
      var front, last := trace[..|trace| - 1], trace[|trace| - 1];
      var s, s' := Run(front), Run(trace);
      EntryIsTheLastInserted(front, node, tag);
      if node in s'.agents && s'.agents[node] == tag {
        if last == Inserted(tag) {
          assert HoldsSince(trace, s'.nodes, node, tag, |trace| - 1);
        } else {
          EntriesAreOwn(front, node);
          HoldingSurvives(trace, node, tag);
        }
      }
      if Holds(trace, s'.nodes, node, tag) {
        HoldingWasHeld(trace, node, tag);
        var i :| HoldsSince(trace, s'.nodes, node, tag, i);
      }
    }
  }

  ghost predicate OwnEntry(s: State, node: int) {
    node in s.agents ==>
      var t := s.agents[node];
      && t < |s.nodes| == |s.phases| && s.nodes[t] == node
      && (s.phases[t] == Serving || s.phases[t] == Abandoned)
  }

  /**
   * An entry's session belongs to that node and has not been torn down: it is
   * still being served, or it quit by the early return.
   */
  lemma {:induction false} EntriesAreOwn(trace: seq<Step>, node: int)
    requires Legal(trace)
    ensures OwnEntry(Run(trace), node)
  {
    if trace != [] {
      EntriesAreOwn(trace[..|trace| - 1], node);
    }
  }

  /** Tags are never reused: no session is inserted twice. */
  lemma {:induction false} TagsAreInsertedOnce(trace: seq<Step>, i: nat, j: nat)
    requires Legal(trace) && i < j < |trace| && trace[i].Inserted? && trace[j].Inserted?
    ensures trace[i].tag != trace[j].tag
  {
    var front := trace[..|trace| - 1];
    if j < |front| {
      TagsAreInsertedOnce(front, i, j);
    } else {
      InsertedNeverWaitsAgain(front, i);
    }
  }

  lemma {:induction false} InsertedNeverWaitsAgain(trace: seq<Step>, i: nat)
    requires Legal(trace) && i < |trace| && trace[i].Inserted?
    ensures trace[i].tag < |Run(trace).phases| && Run(trace).phases[trace[i].tag] != Waiting
  {
    if i < |trace| - 1 {
      InsertedNeverWaitsAgain(trace[..|trace| - 1], i);
    }
  }

  /**
   * A node reads as connected while no session serves it exactly when the session
   * that holds its entry left by the early return. Such an entry stays until the
   * node connects again or is retired.
   */
  lemma StaleExactlyWhenAbandoned(trace: seq<Step>, node: int)
    requires Legal(trace)
    ensures OwnEntry(Run(trace), node)
    ensures var s := Run(trace);
            var unserved := node in s.agents && s.phases[s.agents[node]] != Serving;
            unserved <==> exists t: nat :: t < |s.phases| && s.phases[t] == Abandoned && Holds(trace, s.nodes, node, t)
  {
    var s := Run(trace);
    EntriesAreOwn(trace, node);
    forall t: nat ensures (node in s.agents && s.agents[node] == t) <==> Holds(trace, s.nodes, node, t) {
      EntryIsTheLastInserted(trace, node, t);
    }
  }

  /** One failed send is enough to leave a node reading as connected. */
  lemma FailedSendLeavesTheNodeOnline()
    ensures var trace := [Tagged(7), Inserted(0), Quit(0)];
            Legal(trace) && 7 in Run(trace).agents && forall p <- Run(trace).phases :: p != Serving
  {
    var a, b, c := Tagged(7), Inserted(0), Quit(0);
    assert [a, b, c][..2] == [a, b] && [a, b][..1] == [a] && [a][..0] == [];
    assert Legal([]) && Legal([a]) && Run([a]) == State([7], [Waiting], map[]);
    assert Legal([a, b]) && Run([a, b]) == State([7], [Serving], map[7 := 0]);
  }
}

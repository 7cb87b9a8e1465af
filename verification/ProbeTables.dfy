/**
 * The probe tables: nodes, tasks, which node runs which task, and the results
 * filed under both. SQLite hands a deleted row's id to the next row created, so
 * every row also carries a birth number here, which the code never sees: a result
 * belongs to the rows it was filed under, not merely to their ids.
 */
module ProbeTables {
  import opened Basics

  const MAX_PROBES_PER_NODE := 64

  datatype PingTask = PingTask(id: int, name: string, target: string, interval: int, nodes: seq<int>)

  datatype Probe = Probe(name: string, target: string, interval: int)

  /** The key of `ping_record`. */
  datatype Key = Key(node: int, ts: int, task: int)

  datatype Assignment = Assignment(task: int, node: int)

  datatype Births = Births(node: nat, task: nat)

  datatype Tables = Tables(nodes: set<int>, tasks: map<int, Probe>, links: set<Assignment>, records: map<Key, int>,
                           nodeBirth: map<int, nat>, taskBirth: map<int, nat>, filed: map<Key, Births>, births: nat)

  const EMPTY := Tables({}, map[], {}, map[], map[], map[], map[], 0)

  function TasksOf(links: set<Assignment>, node: int): set<int> {
    set a <- links | a.node == node :: a.task
  }

  ghost predicate Keyed(t: Tables) {
    t.nodeBirth.Keys == t.nodes && t.taskBirth.Keys == t.tasks.Keys && t.filed.Keys == t.records.Keys
  }

  predicate LinksLive(t: Tables) { forall a <- t.links :: a.task in t.tasks && a.node in t.nodes }

  /** A result was filed under the present incarnation of its node and of its task. */
  ghost predicate IsOwn(t: Tables, k: Key) {
    && k.node in t.nodeBirth && k.task in t.taskBirth && k in t.filed
    && t.filed[k] == Births(t.nodeBirth[k.node], t.taskBirth[k.task])
  }

  ghost predicate ResultsOwn(t: Tables) { forall k <- t.records :: IsOwn(t, k) }

  ghost predicate BornBefore(t: Tables) {
    (forall n <- t.nodeBirth :: t.nodeBirth[n] < t.births) && (forall p <- t.taskBirth :: t.taskBirth[p] < t.births)
  }

  ghost predicate Uncrowded(links: set<Assignment>) { forall n: int :: |TasksOf(links, n)| <= MAX_PROBES_PER_NODE }

  /** Every result belongs to the present incarnation of its node and of its task. */
  ghost predicate Clean(t: Tables) {
    Keyed(t) && LinksLive(t) && ResultsOwn(t) && BornBefore(t) && Uncrowded(t.links)
  }

  // ---- row ids ----

  predicate IsGreatest(m: int, ids: set<int>) { m in ids && forall x <- ids :: x <= m }

  lemma {:induction false} GreatestExists(ids: set<int>)
    requires ids != {}
    ensures exists m :: IsGreatest(m, ids)
  {
    HasMember(ids);
    var y :| y in ids;
    var rest := ids - {y};
    if rest == {} {
      assert ids == {y};
      assert IsGreatest(y, ids);
    } else {
      GreatestExists(rest);
      var m :| IsGreatest(m, rest);
      GreatestOfOneMore(ids, y, m);
    }
  }

  lemma GreatestOfOneMore(ids: set<int>, y: int, m: int)
    requires y in ids && IsGreatest(m, ids - {y})
    ensures IsGreatest(Max(m, y), ids)
  {
    forall x | x in ids ensures x <= Max(m, y) {
      if x != y { assert x in ids - {y}; }
    }
  }

  /** One past the greatest id in use, so the newest row's id is the one reused. */
  ghost function NextId(ids: set<int>): (id: int)
    ensures id !in ids && forall x <- ids :: x < id
    ensures ids != {} ==> id - 1 in ids
  {
    if ids == {} then 1
    else
      GreatestExists(ids);
      var m :| IsGreatest(m, ids);
      m + 1
  }

  method FindNextId(ids: set<int>) returns (id: int)
    ensures id == NextId(ids)
    ensures forall x <- ids :: x < id
    ensures if ids == {} then id == 1 else id - 1 in ids
  {
    id := 1;
    if ids == {} {
      return;
    }
    var rest := ids;
    HasMember(rest);
    var m :| m in rest;
    while rest != {}
      invariant rest <= ids && m in ids
      invariant forall x <- ids :: x in rest || x <= m
    {
      HasMember(rest);
      var x :| x in rest;
      m := Max(m, x);
      rest := rest - {x};
    }
    GreatestExists(ids);
    id := m + 1;
  }

  // ---- the statements ----

  /** What a save would leave of one task's assignments. */
  function Reassigned(links: set<Assignment>, id: int, nodes: seq<int>): set<Assignment> {
    (set a <- links | a.task != id) + (set n <- nodes :: Assignment(id, n))
  }

  predicate NoRepeats(s: seq<int>) { forall i, j :: 0 <= i < j < |s| ==> s[i] != s[j] }

  predicate Crowded(links: set<Assignment>) {
    exists a <- links :: |TasksOf(links, a.node)| > MAX_PROBES_PER_NODE
  }

  ghost function SavedId(t: Tables, p: PingTask): int { if p.id > 0 then p.id else NextId(t.tasks.Keys) }

  /** Why a save is refused: an unknown task or node, a node named twice, or a node with too many probes. */
  ghost predicate Refused(t: Tables, p: PingTask) {
    || (p.nodes != [] && p.id > 0 && p.id !in t.tasks)
    || (exists n <- p.nodes :: n !in t.nodes)
    || !NoRepeats(p.nodes)
    || Crowded(Reassigned(t.links, SavedId(t, p), p.nodes))
  }

  /** The probes a node would run after a save: those it runs, and the saved one exactly if it is named. */
  function WouldRun(links: set<Assignment>, id: int, nodes: seq<int>, node: int): set<int> {
    (set a <- links | a.node == node && a.task != id :: a.task) + if node in nodes then {id} else {}
  }

  lemma WouldRunIsReassigned(links: set<Assignment>, id: int, nodes: seq<int>, node: int)
    ensures WouldRun(links, id, nodes, node) == TasksOf(Reassigned(links, id, nodes), node)
  {
    var after, would := Reassigned(links, id, nodes), WouldRun(links, id, nodes, node);
    forall p ensures p in would <==> p in TasksOf(after, node) {
      if p in would {
        if p == id { assert Assignment(id, node) in after; } else { assert Assignment(p, node) in after; }
      }
    }
  }

  /** A save is refused for crowding exactly if some node would run more than 64 probes. */
  lemma RefusedExactlyWhen(t: Tables, p: PingTask)
    ensures Refused(t, p) <==>
      || (p.nodes != [] && p.id > 0 && p.id !in t.tasks)
      || (exists n <- p.nodes :: n !in t.nodes)
      || (exists i, j :: 0 <= i < j < |p.nodes| && p.nodes[i] == p.nodes[j])
      || (exists node: int :: |WouldRun(t.links, SavedId(t, p), p.nodes, node)| > 64)
  {
    var id := SavedId(t, p);
    CrowdedWhen(Reassigned(t.links, id, p.nodes));
    hide Crowded, Reassigned, TasksOf, WouldRun;
    forall node: int ensures WouldRun(t.links, id, p.nodes, node) == TasksOf(Reassigned(t.links, id, p.nodes), node) {
      WouldRunIsReassigned(t.links, id, p.nodes, node);
    }
  }

  lemma CrowdedWhen(links: set<Assignment>)
    ensures Crowded(links) <==> exists node: int :: |TasksOf(links, node)| > 64
  {
    if node: int :| |TasksOf(links, node)| > 64 {
      var p :| p in TasksOf(links, node);
      assert Assignment(p, node) in links;
    }
  }

  /** What deleting a node leaves: the other nodes, their assignments and their results, as they were, and every task. */
  ghost predicate WithoutNode(t: Tables, t': Tables, id: int) {
    && t'.nodes == t.nodes - {id} && t'.tasks == t.tasks
    && (forall a :: a in t'.links <==> a in t.links && a.node != id)
    && (forall k :: k in t'.records <==> k in t.records && k.node != id)
    && (forall k <- t'.records :: t'.records[k] == t.records[k])
  }

  /** And deleting a task: the other tasks, their assignments and their results, as they were, and every node. */
  ghost predicate WithoutTask(t: Tables, t': Tables, id: int) {
    && t'.nodes == t.nodes && t'.tasks == t.tasks - {id}
    && (forall a :: a in t'.links <==> a in t.links && a.task != id)
    && (forall k :: k in t'.records <==> k in t.records && k.task != id)
    && (forall k <- t'.records :: t'.records[k] == t.records[k])
  }

  lemma DeletesSpareTheOthers(t: Tables, id: int)
    ensures WithoutNode(t, Apply(t, DeleteNode(id)), id) && WithoutTask(t, Apply(t, DeleteTask(id)), id)
  {
  }

  lemma BrokenKey(links: set<Assignment>, nodes: set<int>, id: int, wanted: seq<int>, i: nat)
    requires i < |wanted|
    requires wanted[i] !in nodes || Assignment(id, wanted[i]) in Reassigned(links, id, wanted[..i])
    ensures (exists n <- wanted :: n !in nodes) || !NoRepeats(wanted)
  {
    assert wanted[i] in wanted;
    if wanted[i] in wanted[..i] {
      var j :| 0 <= j < i && wanted[j] == wanted[i];
    }
  }

  datatype Op =
    | CreateNode
    | DeleteNode(node: int)
    | SaveTask(task: PingTask)
    | DeleteTask(id: int)
    | AssignAll(joining: int)
    | InsertPing(key: Key, latency: int)

  ghost function Save(t: Tables, p: PingTask): Tables {
    if Refused(t, p) then t
    else
      var id, probe := SavedId(t, p), Probe(p.name, p.target, p.interval);
      var t := t.(links := Reassigned(t.links, id, p.nodes));
      if p.id > 0 then (if id in t.tasks then t.(tasks := t.tasks[id := probe]) else t)
      else t.(tasks := t.tasks[id := probe], taskBirth := t.taskBirth[id := t.births], births := t.births + 1)
  }

  ghost function Apply(t: Tables, op: Op): Tables {
    match op
    case CreateNode =>
      var id := NextId(t.nodes);
      t.(nodes := t.nodes + {id}, nodeBirth := t.nodeBirth[id := t.births], births := t.births + 1)
    case DeleteNode(n) =>
      t.(nodes := t.nodes - {n}, nodeBirth := t.nodeBirth - {n},
         links := (set a <- t.links | a.node != n),
         records := (map k | k in t.records && k.node != n :: t.records[k]),
         filed := (map k | k in t.filed && k.node != n :: t.filed[k]))
    case SaveTask(p) => Save(t, p)
    case DeleteTask(id) =>
      t.(tasks := t.tasks - {id}, taskBirth := t.taskBirth - {id},
         links := (set a <- t.links | a.task != id),
         records := (map k | k in t.records && k.task != id :: t.records[k]),
         filed := (map k | k in t.filed && k.task != id :: t.filed[k]))
    case AssignAll(n) =>
      if |t.tasks| > MAX_PROBES_PER_NODE || (t.tasks != map[] && n !in t.nodes) then t
      else t.(links := Joined(t, n))
    case InsertPing(k, latency) =>
      if Assignment(k.task, k.node) !in t.links then t
      else if k.node !in t.nodeBirth || k.task !in t.taskBirth then t
      else t.(records := t.records[k := latency], filed := t.filed[k := Births(t.nodeBirth[k.node], t.taskBirth[k.task])])
  }

  ghost function Run(t: Tables, ops: seq<Op>): Tables {
    if ops == [] then t else Apply(Run(t, ops[..|ops| - 1]), ops[|ops| - 1])
  }

  // ---- every reachable state ----

  lemma {:induction false} SubsetIsNoLarger(a: set<int>, b: set<int>)
    requires a <= b
    ensures |a| <= |b|
  {
    if a != {} {
      HasMember(a);
      var x :| x in a;
      SubsetIsNoLarger(a - {x}, b - {x});
    }
  }

  lemma FewerAssignmentsCrowdNobody(a: set<Assignment>, b: set<Assignment>)
    requires a <= b && Uncrowded(b)
    ensures Uncrowded(a)
  {
    forall n: int ensures |TasksOf(a, n)| <= MAX_PROBES_PER_NODE { SubsetIsNoLarger(TasksOf(a, n), TasksOf(b, n)); }
  }

  lemma UncrowdedBoundsEveryNode(links: set<Assignment>)
    requires !Crowded(links)
    ensures Uncrowded(links)
  {
  }

  function Joined(t: Tables, n: int): set<Assignment> { t.links + (set p <- t.tasks :: Assignment(p, n)) }

  lemma JoiningStaysWithinTheLimit(t: Tables, n: int)
    requires Clean(t) && |t.tasks| <= MAX_PROBES_PER_NODE
    ensures Uncrowded(Joined(t, n))
  {
    var joined := Joined(t, n);
    forall m: int ensures |TasksOf(joined, m)| <= MAX_PROBES_PER_NODE {
      if m == n {
        assert |t.tasks.Keys| == |t.tasks|;
        SubsetIsNoLarger(TasksOf(joined, m), t.tasks.Keys);
      } else {
        assert TasksOf(joined, m) == TasksOf(t.links, m);
      }
    }
  }

  lemma SavesStayClean(t: Tables, p: PingTask)
    requires Clean(t)
    ensures Clean(Save(t, p))
  {
    if !Refused(t, p) {
      var t' := Save(t, p);
      SavesKeepResults(t, p);
      SavesKeepLinksLive(t, p);
      SavesKeepBirths(t, p);
      hide Save, Refused, Crowded, ResultsOwn, LinksLive, Uncrowded, Keyed, BornBefore;
      UncrowdedBoundsEveryNode(t'.links);
    }
  }

  lemma SavesKeepBirths(t: Tables, p: PingTask)
    requires Keyed(t) && BornBefore(t)
    ensures Keyed(Save(t, p)) && BornBefore(Save(t, p))
  {
    hide Refused, Reassigned, NextId;
  }

  lemma SavesKeepLinksLive(t: Tables, p: PingTask)
    requires LinksLive(t) && !Refused(t, p)
    ensures LinksLive(Save(t, p)) && !Crowded(Save(t, p).links)
  {
    hide Crowded;
    var t', id := Save(t, p), SavedId(t, p);
    forall a | a in t'.links ensures a.task in t'.tasks && a.node in t'.nodes {
      if a !in t.links {
        var n :| n in p.nodes && a == Assignment(id, n);
      }
    }
  }

  /** A new task's birth number is no result's. */
  lemma SavesKeepResults(t: Tables, p: PingTask)
    requires Keyed(t) && ResultsOwn(t)
    ensures ResultsOwn(Save(t, p))
  {
    hide Refused, Reassigned;
    var t' := Save(t, p);
    forall k | k in t'.records ensures IsOwn(t', k) {
      assert IsOwn(t, k);
    }
  }

  lemma NodeDeletesStayClean(t: Tables, n: int)
    requires Clean(t)
    ensures Clean(Apply(t, DeleteNode(n)))
  {
    var t' := Apply(t, DeleteNode(n));
    FewerAssignmentsCrowdNobody(t'.links, t.links);
    hide Uncrowded;
    assert ResultsOwn(t') by {
      forall k | k in t'.records ensures IsOwn(t', k) { assert IsOwn(t, k); }
    }
    hide ResultsOwn;
    assert t'.filed.Keys == t'.records.Keys && t'.nodeBirth.Keys == t'.nodes;
  }

  lemma TaskDeletesStayClean(t: Tables, id: int)
    requires Clean(t)
    ensures Clean(Apply(t, DeleteTask(id)))
  {
    var t' := Apply(t, DeleteTask(id));
    FewerAssignmentsCrowdNobody(t'.links, t.links);
    hide Uncrowded;
    assert ResultsOwn(t') by {
      forall k | k in t'.records ensures IsOwn(t', k) { assert IsOwn(t, k); }
    }
    hide ResultsOwn;
    assert t'.filed.Keys == t'.records.Keys && t'.taskBirth.Keys == t'.tasks.Keys;
  }

  lemma NewNodesStayClean(t: Tables)
    requires Clean(t)
    ensures Clean(Apply(t, CreateNode))
  {
    var t' := Apply(t, CreateNode);
    hide Uncrowded;
    assert ResultsOwn(t') by {
      forall k | k in t'.records ensures IsOwn(t', k) { assert IsOwn(t, k); }
    }
    hide ResultsOwn;
  }

  lemma NewResultsStayClean(t: Tables, k: Key, latency: int)
    requires Clean(t)
    ensures Clean(Apply(t, InsertPing(k, latency)))
  {
    var t' := Apply(t, InsertPing(k, latency));
    hide Uncrowded;
    assert ResultsOwn(t') by {
      forall j | j in t'.records ensures IsOwn(t', j) { if j in t.records { assert IsOwn(t, j); } }
    }
    hide ResultsOwn;
  }

  lemma AssigningStaysClean(t: Tables, n: int)
    requires Clean(t)
    ensures Clean(Apply(t, AssignAll(n)))
  {
    var t' := Apply(t, AssignAll(n));
    if t' != t {
      JoiningStaysWithinTheLimit(t, n);
    }
    assert ResultsOwn(t') by {
      forall k | k in t'.records ensures IsOwn(t', k) { assert IsOwn(t, k); }
    }
  }

  lemma StepsStayClean(t: Tables, op: Op)
    requires Clean(t)
    ensures Clean(Apply(t, op))
  {
    hide TasksOf, Save, Clean;
    match op
    case CreateNode => NewNodesStayClean(t);
    case DeleteNode(id) => NodeDeletesStayClean(t, id);
    case SaveTask(p) => SavesStayClean(t, p);
    case DeleteTask(id) => TaskDeletesStayClean(t, id);
    case AssignAll(n) => AssigningStaysClean(t, n);
    case InsertPing(k, latency) => NewResultsStayClean(t, k, latency);
  }

  /**
   * In every state reachable from an empty database each result belongs to the
   * present incarnation of its node and task, each assignment names live rows and
   * no node has more probes than an agent will run, however ids are reused.
   */
  lemma {:induction false} ReachableTablesAreClean(ops: seq<Op>)
    ensures Clean(Run(EMPTY, ops))
  {
    if ops == [] {
      assert forall n: int :: TasksOf({}, n) == {};
    } else {
      ReachableTablesAreClean(ops[..|ops| - 1]);
      StepsStayClean(Run(EMPTY, ops[..|ops| - 1]), ops[|ops| - 1]);
    }
  }

  /** The id of a deleted newest node goes to the next node created, which starts with no results. */
  lemma ReusedIdInheritsNothing(t: Tables, n: int)
    requires Clean(t) && n in t.nodes && n == NextId(t.nodes - {n})
    ensures var t' := Apply(Apply(t, DeleteNode(n)), CreateNode);
            && n in t'.nodes && t'.nodeBirth[n] != t.nodeBirth[n]
            && (forall k <- t'.records :: k.node != n) && TasksOf(t'.links, n) == {}
  {
  }

  /**
   * A save that is not refused stores its probe, with one exception: an id that
   * names no task, saved with no nodes, succeeds and stores nothing.
   */
  lemma SaveStoresItsProbeUnlessUnknown(t: Tables, p: PingTask)
    requires Clean(t) && !Refused(t, p)
    ensures var t', id := Save(t, p), SavedId(t, p);
            if p.id > 0 && p.id !in t.tasks then p.nodes == [] && t' == t
            else
              && t'.tasks == t.tasks[id := Probe(p.name, p.target, p.interval)]
              && (forall n :: Assignment(id, n) in t'.links <==> n in p.nodes)
              && (forall a: Assignment :: a.task != id ==> (a in t'.links <==> a in t.links))
  {
    if p.id > 0 && p.id !in t.tasks {
      assert Reassigned(t.links, p.id, []) == t.links;
    }
  }

  // ---- the database ----

  class Db {
    var nodes: set<int>
    var tasks: map<int, Probe>
    var links: set<Assignment>
    var records: map<Key, int>
    ghost var nodeBirth: map<int, nat>
    ghost var taskBirth: map<int, nat>
    ghost var filed: map<Key, Births>
    ghost var births: nat

    ghost function Contents(): Tables
      reads this
    {
      Tables(nodes, tasks, links, records, nodeBirth, taskBirth, filed, births)
    }

    constructor ()
      ensures Contents() == EMPTY
    {
      nodes, tasks, links, records := {}, map[], {}, map[];
      nodeBirth, taskBirth, filed, births := map[], map[], map[], 0;
    }

    method CreateNode() returns (id: int)
      modifies this
      ensures Contents() == Apply(old(Contents()), Op.CreateNode)
      ensures id !in old(nodes) && nodes == old(nodes) + {id}
      ensures tasks == old(tasks) && links == old(links) && records == old(records)
    {
      id := FindNextId(nodes);
      nodes, nodeBirth, births := nodes + {id}, nodeBirth[id := births], births + 1;
    }

    method DeleteNode(id: int) returns (found: bool)
      modifies this
      ensures Contents() == Apply(old(Contents()), Op.DeleteNode(id)) && found == (id in old(nodes))
      ensures WithoutNode(old(Contents()), Contents(), id)
    {
      hide WithoutNode;
      DeletesSpareTheOthers(Contents(), id);
      records, filed := (map k | k in records && k.node != id :: records[k]), (map k | k in filed && k.node != id :: filed[k]);
      found := id in nodes;
      nodes, nodeBirth := nodes - {id}, nodeBirth - {id};
      links := set a <- links | a.node != id;
    }

    /** The rows a save inserts, one by one, stopping at the first that breaks a key. */
    method LinkRows(id: int, known: bool, wanted: seq<int>) returns (ok: bool, rows: set<Assignment>)
      ensures ok <==> (wanted != [] ==> known) && (forall n <- wanted :: n in nodes) && NoRepeats(wanted)
      ensures ok ==> rows == Reassigned(links, id, wanted)
    {
      rows := set a <- links | a.task != id;
      for i := 0 to |wanted|
        invariant rows == Reassigned(links, id, wanted[..i])
        invariant NoRepeats(wanted[..i]) && (forall n <- wanted[..i] :: n in nodes) && (i > 0 ==> known)
      {
        var node := wanted[i];
        if !known {
          return false, rows;
        }
        if node !in nodes || Assignment(id, node) in rows {
          BrokenKey(links, nodes, id, wanted, i);
          return false, rows;
        }
        rows := rows + {Assignment(id, node)};
        assert wanted[..i + 1] == wanted[..i] + [node];
      }
      assert wanted[..|wanted|] == wanted;
      return true, rows;
    }

    /** All or nothing: the rows are built aside and written only if every check passes. */
    method SavePingTask(p: PingTask) returns (r: Result<int, string>)
      modifies this
      ensures Contents() == Apply(old(Contents()), SaveTask(p))
      ensures r.Err? <==> Refused(old(Contents()), p)
      ensures r.Err? <==>
        || (p.nodes != [] && p.id > 0 && p.id !in old(tasks))
        || (exists n <- p.nodes :: n !in old(nodes))
        || (exists i, j :: 0 <= i < j < |p.nodes| && p.nodes[i] == p.nodes[j])
        || (exists node: int :: |WouldRun(old(links), SavedId(old(Contents()), p), p.nodes, node)| > 64)
      ensures r.Err? ==> Contents() == old(Contents())
      ensures nodes == old(nodes) && records == old(records)
      ensures r.Ok? ==> r.value == SavedId(old(Contents()), p)
    {
      RefusedExactlyWhen(Contents(), p);
      hide TasksOf, Reassigned, WouldRun;
      var id := p.id;
      var saved := tasks;
      if p.id > 0 {
        if id in tasks {
          saved := saved[id := Probe(p.name, p.target, p.interval)];
        }
      } else {
        id := FindNextId(tasks.Keys);
        saved := saved[id := Probe(p.name, p.target, p.interval)];
      }
      var ok, rows := LinkRows(id, id in saved, p.nodes);
      if !ok {
        return Err("no such server");
      }
      if Crowded(rows) {
        return Err("too many probes");
      }
      if p.id <= 0 {
        taskBirth, births := taskBirth[id := births], births + 1;
      }
      tasks, links := saved, rows;
      return Ok(id);
    }

    method AssignNodeToAllPingTasks(node: int) returns (r: Result<(), string>)
      modifies this
      ensures Contents() == Apply(old(Contents()), AssignAll(node))
      ensures r.Err? <==> |old(tasks)| > 64 || (old(tasks) != map[] && node !in old(nodes))
      ensures nodes == old(nodes) && tasks == old(tasks) && records == old(records)
      ensures r.Ok? ==> forall a :: a in links <==> a in old(links) || (a.node == node && a.task in tasks)
      ensures r.Err? ==> Contents() == old(Contents())
    {
      if |tasks| > MAX_PROBES_PER_NODE || (tasks != map[] && node !in nodes) {
        return Err("not added");
      }
      links := links + (set p <- tasks :: Assignment(p, node));
      forall p | p in tasks ensures p in TasksOf(links, node) { assert Assignment(p, node) in links; }
      forall p | p in TasksOf(old(links), node) ensures p in TasksOf(links, node) {
        assert Assignment(p, node) in links;
      }
      return Ok(());
    }

    method DeletePingTask(id: int)
      modifies this
      ensures Contents() == Apply(old(Contents()), DeleteTask(id))
      ensures WithoutTask(old(Contents()), Contents(), id)
    {
      hide WithoutTask;
      DeletesSpareTheOthers(Contents(), id);
      records, filed := (map k | k in records && k.task != id :: records[k]), (map k | k in filed && k.task != id :: filed[k]);
      tasks, taskBirth := tasks - {id}, taskBirth - {id};
      links := set a <- links | a.task != id;
    }

    method InsertPing(node: int, task: int, ts: int, latency: int)
      requires Clean(Contents())
      modifies this
      ensures Contents() == Apply(old(Contents()), Op.InsertPing(Key(node, ts, task), latency))
      ensures nodes == old(nodes) && tasks == old(tasks) && links == old(links)
      ensures records == if Assignment(task, node) in links then old(records)[Key(node, ts, task) := latency] else old(records)
    {
      if Assignment(task, node) in links {
        records := records[Key(node, ts, task) := latency];
        filed := filed[Key(node, ts, task) := Births(nodeBirth[node], taskBirth[task])];
      }
    }

    /** The list pushed to one agent, in id order. */
    method PingTasksFor(node: int) returns (list: seq<Wanted>)
      requires Clean(Contents())
      ensures IsListFor(Contents(), node, list)
    {
      list := [];
      var rest := TasksOf(links, node);
      while rest != {}
        invariant rest <= TasksOf(links, node)
        invariant ByIdWithin(list, TasksOf(links, node) - rest, tasks)
        invariant forall w <- list, id <- rest :: w.id < id
      {
        var id := Least(rest);
        var w := Wanted(id, tasks[id].target, tasks[id].interval);
        assert Ids(list + [w]) == Ids(list) + {id};
        list := list + [w];
        rest := rest - {id};
        assert TasksOf(links, node) - rest == Ids(list);
      }
    }
  }

  // ---- what an agent is sent ----

  datatype Wanted = Wanted(id: int, target: string, interval: int)

  function Ids(list: seq<Wanted>): set<int> { set w <- list :: w.id }

  predicate IdsRise(list: seq<Wanted>) { forall i, j :: 0 <= i < j < |list| ==> list[i].id < list[j].id }

  ghost predicate ByIdWithin(list: seq<Wanted>, ids: set<int>, tasks: map<int, Probe>) {
    && IdsRise(list) && Ids(list) == ids
    && forall w <- list :: w.id in tasks && tasks[w.id].target == w.target && tasks[w.id].interval == w.interval
  }

  ghost predicate IsListFor(t: Tables, node: int, list: seq<Wanted>) {
    ByIdWithin(list, TasksOf(t.links, node), t.tasks)
  }

  method Least(ids: set<int>) returns (id: int)
    requires ids != {}
    ensures id in ids && forall x <- ids :: id <= x
  {
    var rest := ids;
    HasMember(rest);
    id :| id in rest;
    while rest != {}
      invariant rest <= ids && id in ids
      invariant forall x <- ids :: x in rest || id <= x
    {
      HasMember(rest);
      var x :| x in rest;
      id := Min(id, x);
      rest := rest - {x};
    }
  }

  lemma {:induction false} RisingListHasItsIds(list: seq<Wanted>)
    requires IdsRise(list)
    ensures |list| == |Ids(list)|
  {
    if list != [] {
      var n := |list| - 1;
      RisingListHasItsIds(list[..n]);
      assert list == list[..n] + [list[n]];
      assert list[n].id !in Ids(list[..n]);
      assert Ids(list) == Ids(list[..n]) + {list[n].id};
    }
  }

  /** A list pushed from any reachable state names each assigned probe once and never more than 64. */
  lemma PushedListsFitTheAgent(ops: seq<Op>, node: int, list: seq<Wanted>)
    requires IsListFor(Run(EMPTY, ops), node, list)
    ensures |list| == |TasksOf(Run(EMPTY, ops).links, node)| <= MAX_PROBES_PER_NODE
  {
    ReachableTablesAreClean(ops);
    RisingListHasItsIds(list);
  }
}

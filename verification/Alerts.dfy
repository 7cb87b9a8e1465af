/**
 * The notification sweep. Absences, returns and traffic steps are remembered by
 * the process and die with it; the mark of an announced outage is stored with
 * the node and does not. One step per sweep and node, then whole runs.
 */
module Alerts {
  import opened Basics
  import opened Calendar
  import opened Traffic

  const FLAP_WINDOW := 3_600
  const FLAP_GRACE := 1_800

  /** A numeric setting: what is stored if it is in range, the default otherwise. */
  function Setting(stored: Option<int>, min: int, max: int, default: int): (n: int)
    requires min <= default <= max
    ensures min <= n <= max
    ensures stored.Some? && min <= stored.value <= max ==> n == stored.value
    ensures stored.None? || !(min <= stored.value <= max) ==> n == default
  {
    if stored.Some? && min <= stored.value <= max then stored.value else default
  }

  /** Seconds a node may stay away, from the minutes configured. */
  function Grace(stored: Option<int>): (seconds: int)
    ensures 60 <= seconds <= FLAP_GRACE
    ensures seconds == if stored.Some? && 1 <= stored.value <= 30 then 60 * stored.value else 180
  {
    Setting(stored, 1, FLAP_GRACE / 60, 3) * 60
  }

  datatype Mode = Up | Down | Larger | Both

  datatype Node = Node(id: int, lastSeen: nat, notify: bool, downSince: nat, limit: int, mode: Mode)

  datatype Note = Silent | Offline | Online

  // ---- one node, one sweep ----

  /** What the process remembers of a node's presence. */
  datatype Memory = Memory(absent: Option<int>, returned: Option<int>)

  /** What a sweep finds of a node and of the settings. */
  datatype Look = Look(online: bool, lastSeen: nat, notify: bool, armed: bool, grace: int, now: int)

  /** A node as a sweep leaves it: what the process remembers and the outage stored with it. */
  datatype Presence = Presence(memory: Memory, downSince: nat)

  function Since(m: Memory, now: int): int { match m.absent case Some(s) => s case None => now }

  function Wait(m: Memory, now: int, grace: int): int {
    if m.returned.Some? && Since(m, now) - m.returned.value < FLAP_WINDOW then FLAP_GRACE else grace
  }

  function Announced(p: Presence, l: Look): Note {
    if l.online then (if p.downSince > 0 then Online else Silent)
    else if l.lastSeen > 0 && l.armed && l.notify && p.downSince == 0
            && l.now - Since(p.memory, l.now) >= Wait(p.memory, l.now, l.grace) then Offline
    else Silent
  }

  function Seen(p: Presence, l: Look): Presence {
    var m := p.memory;
    if l.online then
      var long := m.absent.Some? && l.now - m.absent.value >= l.grace;
      Presence(Memory(None, if long then Some(l.now) else m.returned), 0)
    else if l.lastSeen == 0 then p
    else
      Presence(m.(absent := Some(Since(m, l.now))),
               if Announced(p, l) == Offline then l.lastSeen else p.downSince)
  }

  // ---- traffic steps ----

  function Used(mode: Mode, month: Bytes): int {
    match mode
    case Up => month.tx
    case Down => month.rx
    case Larger => Max(month.rx, month.tx)
    case Both => SatAdd(month.rx, month.tx)
  }

  function Reached(used: int, limit: int, percent: int): int {
    if used * 100 >= limit * 100 then 100
    else if used * 100 >= limit * percent then percent
    else 0
  }

  /** The period and step last recorded for a node. */
  type Told = Option<(NaiveDate, int)>

  predicate Fires(told: Told, primed: bool, period: NaiveDate, step: int) {
    step != 0 && primed && !(told.Some? && told.value.0 == period && told.value.1 >= step)
  }

  // ---- the sweep ----

  function Lookup<T>(m: map<int, T>, id: int): Option<T> { if id in m then Some(m[id]) else None }

  class NodeTable {
    var nodes: seq<Node>

    constructor (nodes: seq<Node>)
      ensures this.nodes == nodes
    {
      this.nodes := nodes;
    }

    /** Ids are the table's primary key. */
    ghost predicate Keyed()
      reads this
    {
      forall i, j :: 0 <= i < j < |nodes| ==> nodes[i].id != nodes[j].id
    }
  }

  datatype Settings = Settings(grace: int, armed: bool, percent: int, now: int)

  function LookAt(n: Node, online: set<int>, s: Settings): Look {
    Look(n.id in online, n.lastSeen, n.notify, s.armed, s.grace, s.now)
  }

  /** A node's presence, read out of the process's maps. */
  function PresenceOf(n: Node, absent: map<int, int>, returned: map<int, int>): Presence {
    Presence(Memory(Lookup(absent, n.id), Lookup(returned, n.id)), n.downSince)
  }

  predicate Examined(n: Node, figures: map<int, Figures>, s: Settings) {
    n.limit > 0 && s.percent > 0 && s.armed && n.id in figures
  }

  function StepOf(n: Node, f: Figures, s: Settings): int { Reached(Used(n.mode, f.month), n.limit, s.percent) }

  /** A node moved by its own step, from what was remembered before to what is now. */
  ghost predicate Visited(n: Node, n': Node, absent: map<int, int>, returned: map<int, int>,
                          absent': map<int, int>, returned': map<int, int>, online: set<int>, s: Settings) {
    var after := Seen(PresenceOf(n, absent, returned), LookAt(n, online, s));
    n' == n.(downSince := after.downSince) && PresenceOf(n', absent', returned') == after
  }

  /** The step a sweep records for a node it examines; any other keeps what it had. */
  ghost predicate Recorded(n: Node, figures: map<int, Figures>, s: Settings, was: Told, now: Told) {
    now == if Examined(n, figures, s) then Some((figures[n.id].monthStart, StepOf(n, figures[n.id], s))) else was
  }

  /** The nodes for which a sweep has something of one kind to say. */
  function Telling(nodes: seq<Node>, absent: map<int, int>, returned: map<int, int>, online: set<int>, s: Settings, what: Note): seq<int> {
    if nodes == [] then []
    else
      var n := nodes[|nodes| - 1];
      var told := Announced(PresenceOf(n, absent, returned), LookAt(n, online, s)) == what;
      Telling(nodes[..|nodes| - 1], absent, returned, online, s, what) + if told then [n.id] else []
  }

  lemma NobodyIsTold(absent: map<int, int>, returned: map<int, int>, online: set<int>, s: Settings)
    ensures forall what :: Telling([], absent, returned, online, s, what) == []
  {
  }

  lemma OneMoreIsTold(nodes: seq<Node>, i: nat, absent: map<int, int>, returned: map<int, int>, online: set<int>, s: Settings)
    requires i < |nodes|
    ensures forall what :: Telling(nodes[..i + 1], absent, returned, online, s, what)
                        == Telling(nodes[..i], absent, returned, online, s, what)
                         + if Announced(PresenceOf(nodes[i], absent, returned), LookAt(nodes[i], online, s)) == what
                           then [nodes[i].id] else []
  {
    hide Announced, PresenceOf, LookAt;
    assert nodes[..i + 1][..i] == nodes[..i];
  }

  function Metering(nodes: seq<Node>, traffic: map<int, (NaiveDate, int)>, primed: bool, figures: map<int, Figures>, s: Settings): seq<int> {
    if nodes == [] then []
    else
      var n := nodes[|nodes| - 1];
      var fires := Examined(n, figures, s)
        && Fires(Lookup(traffic, n.id), primed, figures[n.id].monthStart, StepOf(n, figures[n.id], s));
      Metering(nodes[..|nodes| - 1], traffic, primed, figures, s) + if fires then [n.id] else []
  }

  lemma NobodyIsMetered(traffic: map<int, (NaiveDate, int)>, primed: bool, figures: map<int, Figures>, s: Settings)
    ensures Metering([], traffic, primed, figures, s) == []
  {
  }

  lemma OneMoreIsMetered(nodes: seq<Node>, i: nat, traffic: map<int, (NaiveDate, int)>, primed: bool,
                         figures: map<int, Figures>, s: Settings)
    requires i < |nodes|
    ensures var n := nodes[i];
            var fires := Examined(n, figures, s)
              && Fires(Lookup(traffic, n.id), primed, figures[n.id].monthStart, StepOf(n, figures[n.id], s));
            Metering(nodes[..i + 1], traffic, primed, figures, s)
            == Metering(nodes[..i], traffic, primed, figures, s) + if fires then [n.id] else []
  {
    hide Fires, StepOf;
    assert nodes[..i + 1][..i] == nodes[..i];
  }

  lemma FiresUnlessTold(last: Told, primed: bool, period: NaiveDate, step: int)
    ensures Fires(last, primed, period, step)
            <==> step != 0 && primed && !(last.Some? && last.value.0 == period && last.value.1 >= step)
  {
  }

  // ---- what a sweep promises, in plain terms ----

  /**
   * Whom an offline alert is about: a node that has reported before and does not
   * now, with its alerts on, a channel to send them to and no outage on record,
   * gone for the grace period -- or for half an hour, if it had come back within
   * the hour before it went.
   */
  predicate DueOffline(n: Node, absent: map<int, int>, returned: map<int, int>, online: set<int>, s: Settings) {
    && n.id !in online && n.lastSeen > 0 && n.notify && s.armed && n.downSince == 0
    && var since := if n.id in absent then absent[n.id] else s.now;
       var flapping := n.id in returned && since - returned[n.id] < 3_600;
       s.now - since >= if flapping then 1_800 else s.grace
  }

  /** And an online alert: a node that is back from an outage on record, its switches as they may. */
  predicate DueOnline(n: Node, online: set<int>) { n.id in online && n.downSince > 0 }

  /** The bytes that count against a node's allowance. */
  function Counting(mode: Mode, received: i64, sent: i64): int {
    match mode
    case Up => sent
    case Down => received
    case Larger => if received < sent then sent else received
    case Both => if received + sent > I64_MAX then I64_MAX else if received + sent < I64_MIN then I64_MIN else received + sent
  }

  /** The step an allowance has reached: full, past the threshold, or neither. */
  function StepAt(used: int, limit: int, percent: int): int
    requires limit > 0
  {
    if limit <= used then 100 else if limit * percent <= used * 100 then percent else 0
  }

  /** The period and step a sweep finds; nothing for a node it does not examine. */
  function Finding(n: Node, figures: map<int, Figures>, s: Settings): Told {
    if n.limit > 0 && s.percent > 0 && s.armed && n.id in figures then
      var f := figures[n.id];
      Some((f.monthStart, StepAt(Counting(n.mode, f.month.rx, f.month.tx), n.limit, s.percent)))
    else None
  }

  /** And a traffic alert: a step reached, past the first sweep, and none as high recorded for its period. */
  predicate DueTraffic(n: Node, traffic: map<int, (NaiveDate, int)>, primed: bool, figures: map<int, Figures>, s: Settings) {
    var found := Finding(n, figures, s);
    && primed && found.Some? && found.value.1 != 0
    && (n.id in traffic && traffic[n.id].0 == found.value.0 ==> traffic[n.id].1 < found.value.1)
  }

  /** What a sweep leaves of a node and of what is remembered of its presence. */
  ghost predicate Moved(n: Node, n': Node, absent: map<int, int>, returned: map<int, int>,
                        absent': map<int, int>, returned': map<int, int>, online: set<int>, s: Settings) {
    && n' == n.(downSince := if n.id in online then 0
                             else if DueOffline(n, absent, returned, online, s) then n.lastSeen else n.downSince)
    && (n.id in absent' <==> n.id !in online && (n.lastSeen > 0 || n.id in absent))
    && (n.id in absent' ==> absent'[n.id] == if n.id in absent then absent[n.id] else s.now)
    && (if n.id in online && n.id in absent && s.now - absent[n.id] >= s.grace
        then n.id in returned' && returned'[n.id] == s.now
        else (n.id in returned' <==> n.id in returned) && (n.id in returned ==> returned'[n.id] == returned[n.id]))
  }

  lemma VisitedFromTheSame(n: Node, n': Node, a: map<int, int>, r: map<int, int>, absent: map<int, int>, returned: map<int, int>,
                           absent': map<int, int>, returned': map<int, int>, online: set<int>, s: Settings)
    requires PresenceOf(n, a, r) == PresenceOf(n, absent, returned) && Visited(n, n', a, r, absent', returned', online, s)
    ensures Visited(n, n', absent, returned, absent', returned', online, s)
  {
    hide Seen, PresenceOf;
  }

  lemma VisitedIsMoved(n: Node, n': Node, absent: map<int, int>, returned: map<int, int>,
                       absent': map<int, int>, returned': map<int, int>, online: set<int>, s: Settings)
    requires Visited(n, n', absent, returned, absent', returned', online, s)
    ensures Moved(n, n', absent, returned, absent', returned', online, s)
  {
  }

  lemma AnnouncedIsDue(n: Node, absent: map<int, int>, returned: map<int, int>, online: set<int>, s: Settings)
    ensures var note := Announced(PresenceOf(n, absent, returned), LookAt(n, online, s));
            && (note == Offline <==> DueOffline(n, absent, returned, online, s))
            && (note == Online <==> DueOnline(n, online))
  {
  }

  lemma FiringIsDue(n: Node, traffic: map<int, (NaiveDate, int)>, primed: bool, figures: map<int, Figures>, s: Settings)
    ensures Examined(n, figures, s) <==> Finding(n, figures, s).Some?
    ensures Examined(n, figures, s) ==>
      Finding(n, figures, s).value == (figures[n.id].monthStart, StepOf(n, figures[n.id], s))
    ensures DueTraffic(n, traffic, primed, figures, s) <==>
      Examined(n, figures, s) && Fires(Lookup(traffic, n.id), primed, figures[n.id].monthStart, StepOf(n, figures[n.id], s))
  {
    if Examined(n, figures, s) {
      StepsAreAsStated(n, figures[n.id], s);
      hide StepOf, StepAt, Counting;
    }
  }

  lemma StepsAreAsStated(n: Node, f: Figures, s: Settings)
    requires n.limit > 0
    ensures StepOf(n, f, s) == StepAt(Counting(n.mode, f.month.rx, f.month.tx), n.limit, s.percent)
  {
  }

  /** A list of nodes to announce names a node exactly when its own step announces that, and nothing else. */
  lemma {:induction false} TellingNames(nodes: seq<Node>, absent: map<int, int>, returned: map<int, int>, online: set<int>,
                                        s: Settings, what: Note, n: Node)
    requires Distinct(nodes)
    ensures n in nodes ==>
      (n.id in Telling(nodes, absent, returned, online, s, what)
       <==> Announced(PresenceOf(n, absent, returned), LookAt(n, online, s)) == what)
    ensures (forall m <- nodes :: m.id != n.id) ==> n.id !in Telling(nodes, absent, returned, online, s, what)
  {
    hide Announced, PresenceOf, LookAt;
    if nodes != [] {
      var k := |nodes| - 1;
      TellingNames(nodes[..k], absent, returned, online, s, what, n);
      OneOfDistinct(nodes, n);
    }
  }

  predicate Distinct(nodes: seq<Node>) { forall i, j :: 0 <= i < j < |nodes| ==> nodes[i].id != nodes[j].id }

  /** Of nodes with distinct ids, a node is the last or among the others, which then all have other ids. */
  lemma OneOfDistinct(nodes: seq<Node>, n: Node)
    requires Distinct(nodes) && nodes != []
    ensures var k := |nodes| - 1;
            && Distinct(nodes[..k]) && (n in nodes <==> n in nodes[..k] || n == nodes[k])
            && (n in nodes[..k] ==> n.id != nodes[k].id)
            && (n == nodes[k] ==> forall m <- nodes[..k] :: m.id != n.id)
            && ((forall m <- nodes :: m.id != n.id) ==> nodes[k].id != n.id && forall m <- nodes[..k] :: m.id != n.id)
  {
    assert nodes == nodes[..|nodes| - 1] + [nodes[|nodes| - 1]];
  }

  lemma {:induction false} MeteringNames(nodes: seq<Node>, traffic: map<int, (NaiveDate, int)>, primed: bool,
                                         figures: map<int, Figures>, s: Settings, n: Node)
    requires Distinct(nodes)
    ensures n in nodes ==>
      (n.id in Metering(nodes, traffic, primed, figures, s) <==>
       Examined(n, figures, s) && Fires(Lookup(traffic, n.id), primed, figures[n.id].monthStart, StepOf(n, figures[n.id], s)))
    ensures (forall m <- nodes :: m.id != n.id) ==> n.id !in Metering(nodes, traffic, primed, figures, s)
  {
    hide Examined, Fires, StepOf;
    if nodes != [] {
      var k := |nodes| - 1;
      MeteringNames(nodes[..k], traffic, primed, figures, s, n);
      OneOfDistinct(nodes, n);
    }
  }

  /** The three lists of a sweep, for the node asked about. */
  ghost predicate ListedWhenDue(n: Node, down: seq<int>, up: seq<int>, metered: seq<int>, absent: map<int, int>, returned: map<int, int>,
                                online: set<int>, traffic: map<int, (NaiveDate, int)>, primed: bool,
                                figures: map<int, Figures>, s: Settings) {
    && (n.id in down <==> DueOffline(n, absent, returned, online, s))
    && (n.id in up <==> DueOnline(n, online))
    && (n.id in metered <==> DueTraffic(n, traffic, primed, figures, s))
  }

  lemma ListsNameThoseDue(nodes: seq<Node>, n: Node, absent: map<int, int>, returned: map<int, int>, online: set<int>,
                          traffic: map<int, (NaiveDate, int)>, primed: bool, figures: map<int, Figures>, s: Settings)
    requires Distinct(nodes) && n in nodes
    ensures ListedWhenDue(n, Telling(nodes, absent, returned, online, s, Offline), Telling(nodes, absent, returned, online, s, Online),
                          Metering(nodes, traffic, primed, figures, s), absent, returned, online, traffic, primed, figures, s)
  {
    hide Announced, Fires, Examined, StepOf, DueOffline, DueOnline, DueTraffic, Telling, Metering;
    TellingNames(nodes, absent, returned, online, s, Offline, n);
    TellingNames(nodes, absent, returned, online, s, Online, n);
    AnnouncedIsDue(n, absent, returned, online, s);
    MeteringNames(nodes, traffic, primed, figures, s, n);
    FiringIsDue(n, traffic, primed, figures, s);
  }

  /** The step found is recorded; what was is kept for a node not examined. */
  ghost predicate Noted(n: Node, figures: map<int, Figures>, s: Settings, traffic: map<int, (NaiveDate, int)>,
                        traffic': map<int, (NaiveDate, int)>) {
    var found := Finding(n, figures, s);
    if found.Some? then n.id in traffic' && traffic'[n.id] == found.value
    else (n.id in traffic' <==> n.id in traffic) && (n.id in traffic ==> traffic'[n.id] == traffic[n.id])
  }

  lemma RecordedIsNoted(n: Node, figures: map<int, Figures>, s: Settings, traffic: map<int, (NaiveDate, int)>,
                        traffic': map<int, (NaiveDate, int)>)
    requires Recorded(n, figures, s, Lookup(traffic, n.id), Lookup(traffic', n.id))
    ensures Noted(n, figures, s, traffic, traffic')
  {
    hide StepOf, Finding;
    FiringIsDue(n, traffic, true, figures, s);
  }

  class Watch {
    var primed: bool
    var traffic: map<int, (NaiveDate, int)>
    var absent: map<int, int>
    var returned: map<int, int>

    constructor ()
      ensures !primed && traffic == map[] && absent == map[] && returned == map[]
    {
      primed, traffic, absent, returned := false, map[], map[], map[];
    }

    /** Drops what is remembered under the ids of deleted nodes, which new nodes may be given. */
    method Forget(ids: set<int>)
      modifies this`absent, this`returned, this`traffic
      ensures absent == map id | id in old(absent) && id in ids :: old(absent)[id]
      ensures returned == map id | id in old(returned) && id in ids :: old(returned)[id]
      ensures traffic == map id | id in old(traffic) && id in ids :: old(traffic)[id]
    {
      absent := map id | id in absent && id in ids :: absent[id];
      returned := map id | id in returned && id in ids :: returned[id];
      traffic := map id | id in traffic && id in ids :: traffic[id];
    }

    /** One node's turn in the sweep. */
    method Visit(db: NodeTable, i: nat, online: set<int>, s: Settings) returns (note: Note)
      requires i < |db.nodes|
      modifies this`absent, this`returned, db`nodes
      ensures var n := old(db.nodes)[i];
              var before := PresenceOf(n, old(absent), old(returned));
              var after := Seen(before, LookAt(n, online, s));
              && note == Announced(before, LookAt(n, online, s))
              && db.nodes == old(db.nodes)[i := n.(downSince := after.downSince)]
              && PresenceOf(db.nodes[i], absent, returned) == after
              && absent.Keys <= old(absent).Keys + {n.id} && returned.Keys <= old(returned).Keys + {n.id}
      ensures var n := old(db.nodes)[i];
              && (note == Offline <==> DueOffline(n, old(absent), old(returned), online, s))
              && (note == Online <==> DueOnline(n, online))
              && Moved(n, db.nodes[i], old(absent), old(returned), absent, returned, online, s)
      ensures forall id :: id != old(db.nodes)[i].id ==>
        Lookup(absent, id) == Lookup(old(absent), id) && Lookup(returned, id) == Lookup(old(returned), id)
    {
      var node := db.nodes[i];
      note := Silent;
      if node.id in online {
        if node.id in absent && s.now - absent[node.id] >= s.grace {
          returned := returned[node.id := s.now];
        }
        absent := absent - {node.id};
        if node.downSince > 0 {
          db.nodes := db.nodes[i := node.(downSince := 0)];
          note := Online;
        }
        return;
      }
      if node.lastSeen == 0 {
        return;
      }
      var since := if node.id in absent then absent[node.id] else s.now;
      absent := absent[node.id := since];
      var flapping := node.id in returned && since - returned[node.id] < FLAP_WINDOW;
      var wait := if flapping then FLAP_GRACE else s.grace;
      if s.armed && node.notify && node.downSince == 0 && s.now - since >= wait {
        db.nodes := db.nodes[i := node.(downSince := node.lastSeen)];
        note := Offline;
      }
    }

    /** Every node moves by its own step; `down` and `up` name those to announce. */
    method Presences(db: NodeTable, online: set<int>, s: Settings) returns (down: seq<int>, up: seq<int>)
      requires db.Keyed()
      modifies this`absent, this`returned, db`nodes
      ensures |db.nodes| == |old(db.nodes)|
      ensures forall i :: 0 <= i < |db.nodes| ==>
        Visited(old(db.nodes)[i], db.nodes[i], old(absent), old(returned), absent, returned, online, s)
      ensures absent.Keys <= old(absent).Keys + set n <- old(db.nodes) :: n.id
      ensures returned.Keys <= old(returned).Keys + set n <- old(db.nodes) :: n.id
      ensures down == Telling(old(db.nodes), old(absent), old(returned), online, s, Offline)
      ensures up == Telling(old(db.nodes), old(absent), old(returned), online, s, Online)
    {
      hide Seen, Announced, Telling;
      var nodes := db.nodes;
      down, up := [], [];
      NobodyIsTold(old(absent), old(returned), online, s);
      for i := 0 to |nodes|
        invariant |db.nodes| == |nodes|
        invariant forall j :: i <= j < |nodes| ==>
          && db.nodes[j] == nodes[j]
          && PresenceOf(nodes[j], absent, returned) == PresenceOf(nodes[j], old(absent), old(returned))
        invariant forall j :: 0 <= j < i ==>
          Visited(nodes[j], db.nodes[j], old(absent), old(returned), absent, returned, online, s)
        invariant absent.Keys <= old(absent).Keys + set n <- nodes :: n.id
        invariant returned.Keys <= old(returned).Keys + set n <- nodes :: n.id
        invariant down == Telling(nodes[..i], old(absent), old(returned), online, s, Offline)
        invariant up == Telling(nodes[..i], old(absent), old(returned), online, s, Online)
      {
        OneMoreIsTold(nodes, i, old(absent), old(returned), online, s);
        assert nodes[i] in nodes;
        var note := Visit(db, i, online, s);
        match note {
          case Offline => down := down + [nodes[i].id];
          case Online => up := up + [nodes[i].id];
          case Silent =>
        }
      }
      assert nodes[..|nodes|] == nodes;
    }

    method Steps(nodes: seq<Node>, figures: map<int, Figures>, s: Settings) returns (metered: seq<int>)
      requires forall i, j :: 0 <= i < j < |nodes| ==> nodes[i].id != nodes[j].id
      modifies this`traffic
      ensures metered == Metering(nodes, old(traffic), primed, figures, s)
      ensures forall n <- nodes :: Recorded(n, figures, s, Lookup(old(traffic), n.id), Lookup(traffic, n.id))
      ensures traffic.Keys <= old(traffic).Keys + set n <- nodes :: n.id
    {
      hide StepOf, Fires, Metering;
      metered := [];
      NobodyIsMetered(old(traffic), primed, figures, s);
      for i := 0 to |nodes|
        invariant forall j :: i <= j < |nodes| ==> Lookup(traffic, nodes[j].id) == Lookup(old(traffic), nodes[j].id)
        invariant forall j :: 0 <= j < i ==>
          Recorded(nodes[j], figures, s, Lookup(old(traffic), nodes[j].id), Lookup(traffic, nodes[j].id))
        invariant traffic.Keys <= old(traffic).Keys + set n <- nodes :: n.id
        invariant metered == Metering(nodes[..i], old(traffic), primed, figures, s)
      {
        var node := nodes[i];
        OneMoreIsMetered(nodes, i, old(traffic), primed, figures, s);
        if node.limit > 0 && s.percent > 0 && s.armed && node.id in figures {
          var f := figures[node.id];
          var step := StepOf(node, f, s);
          var last := Lookup(traffic, node.id);
          traffic := traffic[node.id := (f.monthStart, step)];
          var told := last.Some? && last.value.0 == f.monthStart && last.value.1 >= step;
          FiresUnlessTold(last, primed, f.monthStart, step);
          if step != 0 && !told && primed {
            metered := metered + [node.id];
          }
        }
      }
      assert nodes[..|nodes|] == nodes;
    }

    /**
     * The whole sweep, in terms of the state before it: who is announced, what is
     * left of each node and what is remembered of it. Nothing is remembered of any
     * other id.
     */
    method Sweep(db: NodeTable, figures: map<int, Figures>, online: set<int>, s: Settings)
      returns (down: seq<int>, up: seq<int>, metered: seq<int>)
      requires db.Keyed()
      modifies this, db`nodes
      ensures primed && |db.nodes| == |old(db.nodes)|
      ensures forall n <- old(db.nodes) ::
        ListedWhenDue(n, down, up, metered, old(absent), old(returned), online, old(traffic), old(primed), figures, s)
      ensures forall i :: 0 <= i < |db.nodes| ==>
        Moved(old(db.nodes)[i], db.nodes[i], old(absent), old(returned), absent, returned, online, s)
      ensures forall n <- old(db.nodes) :: Noted(n, figures, s, old(traffic), traffic)
      ensures forall i :: 0 <= i < |db.nodes| ==>
        Visited(old(db.nodes)[i], db.nodes[i], old(absent), old(returned), absent, returned, online, s)
      ensures forall n <- old(db.nodes) ::
        Recorded(n, figures, s, Lookup(old(traffic), n.id), Lookup(traffic, n.id))
      ensures var ids := set n <- old(db.nodes) :: n.id; absent.Keys <= ids && returned.Keys <= ids && traffic.Keys <= ids
      ensures down == Telling(old(db.nodes), old(absent), old(returned), online, s, Offline)
      ensures up == Telling(old(db.nodes), old(absent), old(returned), online, s, Online)
      ensures metered == Metering(old(db.nodes), old(traffic), old(primed), figures, s)
    {
      hide Seen, Announced, Telling, Metering, Fires, StepOf, Moved, Noted, ListedWhenDue, Examined, PresenceOf, Visited;
      var nodes := db.nodes;
      var ids := set n <- nodes :: n.id;
      Forget(ids);
      ghost var forgotten := (absent, returned);
      ForgettingOthersTellsTheSame(nodes, ids, old(absent), old(returned), absent, returned, online, s);
      ForgettingOthersMetersTheSame(nodes, ids, old(traffic), traffic, primed, figures, s);
      down, up := Presences(db, online, s);
      metered := Steps(nodes, figures, s);
      primed := true;
      forall n | n in nodes
        ensures ListedWhenDue(n, down, up, metered, old(absent), old(returned), online, old(traffic), old(primed), figures, s)
        ensures Noted(n, figures, s, old(traffic), traffic)
      {
        ListsNameThoseDue(nodes, n, old(absent), old(returned), online, old(traffic), old(primed), figures, s);
        RecordedIsNoted(n, figures, s, old(traffic), traffic);
      }
      forall i | 0 <= i < |nodes|
        ensures Visited(nodes[i], db.nodes[i], old(absent), old(returned), absent, returned, online, s)
        ensures Moved(nodes[i], db.nodes[i], old(absent), old(returned), absent, returned, online, s)
      {
        assert nodes[i] in nodes;
        VisitedFromTheSame(nodes[i], db.nodes[i], forgotten.0, forgotten.1, old(absent), old(returned), absent, returned, online, s);
        VisitedIsMoved(nodes[i], db.nodes[i], old(absent), old(returned), absent, returned, online, s);
      }
    }
  }

  lemma {:induction false} ForgettingOthersTellsTheSame(nodes: seq<Node>, ids: set<int>, a: map<int, int>, r: map<int, int>,
                                                        a': map<int, int>, r': map<int, int>, online: set<int>, s: Settings)
    requires forall n <- nodes :: n.id in ids
    requires forall id <- ids :: Lookup(a', id) == Lookup(a, id) && Lookup(r', id) == Lookup(r, id)
    ensures forall n <- nodes :: PresenceOf(n, a', r') == PresenceOf(n, a, r)
    ensures forall what :: Telling(nodes, a', r', online, s, what) == Telling(nodes, a, r, online, s, what)
  {
    if nodes != [] {
      ForgettingOthersTellsTheSame(nodes[..|nodes| - 1], ids, a, r, a', r', online, s);
    }
  }

  lemma {:induction false} ForgettingOthersMetersTheSame(nodes: seq<Node>, ids: set<int>, t: map<int, (NaiveDate, int)>,
                                                         t': map<int, (NaiveDate, int)>, primed: bool,
                                                         figures: map<int, Figures>, s: Settings)
    requires forall n <- nodes :: n.id in ids
    requires forall id <- ids :: Lookup(t', id) == Lookup(t, id)
    ensures Metering(nodes, t', primed, figures, s) == Metering(nodes, t, primed, figures, s)
  {
    if nodes != [] {
      ForgettingOthersMetersTheSame(nodes[..|nodes| - 1], ids, t, t', primed, figures, s);
    }
  }
}

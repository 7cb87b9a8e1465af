/**
 * One agent's reports on their way into history. Every report moves the live
 * entry and the traffic ledger; one row a minute goes to the chart, carrying the
 * mean of the reports since the previous row and the average rate at which the
 * ledger's totals climbed.
 */
module Reports {
  import opened Basics
  import opened Calendar
  import opened Traffic

  datatype Json = Null | Text(s: string) | Int(n: int) | Float(x: real) | List(items: seq<Json>) | Object

  type Metrics = map<string, Json>

  /** Fields a row carries as a mean: the first keeps its fraction, the rest are rounded. */
  const AVERAGED := ["cpu", "mem_used", "swap_used", "disk_used", "tcp", "udp", "procs"]

  const NUMERIC := ["net_rx_total", "net_tx_total", "uptime", "cpu", "mem_total", "mem_used", "swap_total",
                    "swap_used", "disk_total", "disk_used", "net_rx", "net_tx", "tcp", "udp", "procs"]

  /** A field's number; a field that is absent or holds none counts as zero. */
  function Number(m: Metrics, key: string): (x: real)
    ensures forall n :: key in m && m[key] == Int(n) ==> x == n as real
    ensures forall y :: key in m && m[key] == Float(y) ==> x == y
    ensures key !in m || !(m[key].Int? || m[key].Float?) ==> x == 0.0
  {
    if key !in m then 0.0 else match m[key] case Int(n) => n as real case Float(x) => x case _ => 0.0
  }

  predicate IsMeasure(v: Json) { (v.Int? && v.n >= 0) || (v.Float? && v.x >= 0.0) }

  predicate Usable(m: Metrics) {
    && (forall k | 0 <= k < |NUMERIC| :: NUMERIC[k] in m ==> IsMeasure(m[NUMERIC[k]]))
    && ("load" in m ==> var load := m["load"];
          load.List? && |load.items| == 3 && forall v | v in load.items :: IsMeasure(v))
  }

  function Counter(m: Metrics, key: string): Option<i64> {
    if key in m && m[key].Int? && 0 <= m[key].n <= I64_MAX then Some(m[key].n) else None
  }

  predicate IsReading(m: Metrics, key: string, n: int) { key in m && m[key] == Int(n) && 0 <= n <= I64_MAX }

  /** Both counters or none: half a reading is no reading. */
  function Counters(m: Metrics): (c: Option<Bytes>)
    ensures c.Some? <==> exists rx, tx :: IsReading(m, "net_rx_total", rx) && IsReading(m, "net_tx_total", tx)
    ensures c.Some? ==> IsReading(m, "net_rx_total", c.value.rx) && IsReading(m, "net_tx_total", c.value.tx)
  {
    var rx, tx := Counter(m, "net_rx_total"), Counter(m, "net_tx_total");
    if rx.Some? && tx.Some? then
      assert IsReading(m, "net_rx_total", rx.value) && IsReading(m, "net_tx_total", tx.value);
      Some(Bytes(rx.value, tx.value))
    else None
  }

  /** Never empty, which the ledger would take for the absence of a baseline. */
  function BootId(m: Metrics): (id: string)
    ensures id != ""
    ensures "boot_id" in m && m["boot_id"].Text? && m["boot_id"].s != "" ==> m["boot_id"] == Text(id)
    ensures "boot_id" !in m || !m["boot_id"].Text? || m["boot_id"].s == "" ==> id == "-"
  {
    if "boot_id" in m && m["boot_id"].Text? && m["boot_id"].s != "" then m["boot_id"].s else "-"
  }

  /** The live payload: the report, with four of the ledger's figures laid over it. */
  function Injected(m: Metrics, f: Figures): Metrics {
    m["total_rx" := Int(f.total.rx)]["total_tx" := Int(f.total.tx)]
     ["month_rx" := Int(f.month.rx)]["month_tx" := Int(f.month.tx)]
  }

  lemma LivePayloadShowsTheLedger(m: Metrics, f: Figures, key: string)
    ensures var shown := Injected(m, f);
            && Shows(shown, "total_rx", f.total.rx) && Shows(shown, "total_tx", f.total.tx)
            && Shows(shown, "month_rx", f.month.rx) && Shows(shown, "month_tx", f.month.tx)
            && (key !in ["total_rx", "total_tx", "month_rx", "month_tx"] ==>
                  (key in shown <==> key in m) && (key in m ==> shown[key] == m[key]))
  {
  }

  predicate Shows(m: Metrics, key: string, n: int) { key in m && m[key] == Int(n) }

  /** A report is refused exactly for a field that is present and not a non-negative number, or a load that is not three. */
  lemma RefusedForMalformedFields(m: Metrics)
    ensures !Usable(m) <==>
      || (exists key :: key in NUMERIC && key in m && !NonNegative(m[key]))
      || ("load" in m && !(m["load"].List? && |m["load"].items| == 3
                           && NonNegative(m["load"].items[0]) && NonNegative(m["load"].items[1]) && NonNegative(m["load"].items[2])))
  {
    forall key | key in NUMERIC ensures exists k :: 0 <= k < |NUMERIC| && NUMERIC[k] == key { }
    forall v ensures NonNegative(v) <==> IsMeasure(v) { }
  }

  predicate NonNegative(v: Json) {
    match v case Int(n) => n >= 0 case Float(x) => x >= 0.0 case _ => false
  }

  // ---- what a stored row means ----

  function Sum(reports: seq<Metrics>, key: string): real {
    if reports == [] then 0.0
    else Sum(reports[..|reports| - 1], key) + Number(reports[|reports| - 1], key)
  }

  function Rounded(x: real): int {
    Max(I64_MIN, Min(I64_MAX, if x >= 0.0 then (x + 0.5).Floor else -(0.5 - x).Floor))
  }

  function Mean(reports: seq<Metrics>, slot: nat): Json
    requires reports != [] && slot < |AVERAGED|
  {
    var mean := Sum(reports, AVERAGED[slot]) / |reports| as real;
    if slot == 0 then Float(mean) else Int(Rounded(mean))
  }

  /** `row` with every averaged field it has replaced by that field's mean. */
  function WithMeans(row: Metrics, reports: seq<Metrics>, slots: nat): Metrics
    requires reports != [] && slots <= |AVERAGED|
  {
    if slots == 0 then row
    else
      var done := WithMeans(row, reports, slots - 1);
      var key := AVERAGED[slots - 1];
      if key in done then done[key := Mean(reports, slots - 1)] else done
  }

  /** One stored row: the reports it averages and, given an earlier mark, the seconds and bytes since. */
  datatype Stored = Stored(stamp: int, of: seq<Metrics>, since: Option<Span>)

  datatype Span = Span(elapsed: int, gained: Bytes)

  function Rate(s: Span, down: bool): int
    requires 0 < s.elapsed
  {
    Max(0, Side(s.gained, down)) / s.elapsed
  }

  function RowOf(s: Stored): Metrics
    requires s.of != [] && (s.since.Some? ==> 0 < s.since.value.elapsed)
  {
    var row := WithMeans(s.of[|s.of| - 1], s.of, |AVERAGED|);
    match s.since
    case None => row
    case Some(span) => row["net_rx" := Int(Rate(span, true))]["net_tx" := Int(Rate(span, false))]
  }

  datatype Mark = Mark(at: int, total: Bytes)

  const NANOS := 1_000_000_000

  /** Whole seconds between two monotonic instants, at least one. */
  function Elapsed(from: int, to: int): (seconds: int)
    ensures 1 <= seconds
    ensures if to - from < NANOS then seconds == 1 else seconds * NANOS <= to - from < (seconds + 1) * NANOS
  {
    Max(1, Max(0, to - from) / NANOS)
  }

  function Minus(a: i64, b: i64): i64 { SatSub(a, b) }

  // ---- the live entry ----

  /** What the entry stands for; `pending` are the reports of the minute in progress. */
  datatype Entry = Entry(metrics: Option<Metrics>, lastSeen: int, lastMinute: int,
                         mark: Option<Mark>, pending: seq<Metrics>)

  /** A fresh session counts the minute in progress as stored. */
  function Connected(now: int): Entry { Entry(None, 0, TruncDiv(now, 60), None, []) }

  function Fold(e: Entry, m: Metrics, now: int, tick: int, total: Bytes): (Entry, Option<Stored>) {
    var minute := TruncDiv(now, 60);
    var here := Mark(tick, total);
    var e' := e.(metrics := Some(m), lastSeen := now);
    if e.lastMinute == minute then
      (e'.(mark := if e.mark.Some? then e.mark else Some(here), pending := e.pending + [m]), None)
    else
      (e'.(lastMinute := minute, mark := Some(here), pending := []),
       Some(Stored(minute * 60, e.pending + [m],
                   match e.mark
                   case None => None
                   case Some(from) =>
                     Some(Span(Elapsed(from.at, tick),
                               Bytes(Minus(total.rx, from.total.rx), Minus(total.tx, from.total.tx)))))))
  }

  /** A row is stamped with the minute its last report came in, and each minute of the clock has one. */
  lemma RowsAreStampedWithTheirMinute(s: State, f: Feed)
    requires 0 <= f.now
    ensures var stored := Step(s, f).1;
            && (stored.Some? ==> stored.value.stamp % 60 == 0 && stored.value.stamp <= f.now < stored.value.stamp + 60)
            && (stored.Some? <==> !(s.entry.lastMinute * 60 <= f.now < s.entry.lastMinute * 60 + 60))
  {
    TruncDivTruncates(f.now, 60);
    hide TruncDiv, Booked, Shown;
  }

  lemma FoldStamps(e: Entry, m: Metrics, now: int, tick: int, total: Bytes)
    ensures var stored := Fold(e, m, now, tick, total).1; stored.Some? ==> stored.value.stamp == TruncDiv(now, 60) * 60
  {
  }

  /** The entry as it is held: running sums instead of the reports they sum. */
  class Agent {
    var metrics: Option<Metrics>
    var lastSeen: int
    var lastMinute: int
    var mark: Option<Mark>
    var sums: seq<real>
    var reports: nat
    ghost var pending: seq<Metrics>

    ghost predicate Valid()
      reads this
    {
      && reports == |pending| && |sums| == |AVERAGED|
      && forall slot :: 0 <= slot < |sums| ==> sums[slot] == Sum(pending, AVERAGED[slot])
    }

    ghost function Contents(): Entry
      reads this
    {
      Entry(metrics, lastSeen, lastMinute, mark, pending)
    }

    constructor (now: int)
      ensures Valid() && Contents() == Connected(now)
      ensures 0 <= now ==> lastMinute * 60 <= now < lastMinute * 60 + 60
    {
      TruncDivTruncates(now, 60);
      metrics, lastSeen, lastMinute, mark := None, 0, TruncDiv(now, 60), None;
      sums, reports, pending := seq(|AVERAGED|, _ => 0.0), 0, [];
    }

    method AddToMinute(m: Metrics)
      requires Valid()
      modifies this`sums, this`reports, this`pending
      ensures Valid() && pending == old(pending) + [m]
    {
      ghost var was := sums;
      for slot := 0 to |AVERAGED|
        invariant |sums| == |AVERAGED| && reports == old(reports) && pending == old(pending)
        invariant forall k :: slot <= k < |sums| ==> sums[k] == was[k]
        invariant forall k :: 0 <= k < slot ==> sums[k] == was[k] + Number(m, AVERAGED[k])
      {
        sums := sums[slot := sums[slot] + Number(m, AVERAGED[slot])];
      }
      reports := reports + 1;
      pending := pending + [m];
      assert pending[..|pending| - 1] == old(pending);
    }

    method WriteMeansInto(row: Metrics) returns (out: Metrics)
      requires Valid()
      ensures out == if reports == 0 then row else WithMeans(row, pending, |AVERAGED|)
    {
      out := row;
      if reports == 0 {
        return;
      }
      for slot := 0 to |AVERAGED|
        invariant out == WithMeans(row, pending, slot)
      {
        if AVERAGED[slot] in out {
          var mean := sums[slot] / reports as real;
          out := out[AVERAGED[slot] := if slot == 0 then Float(mean) else Int(Rounded(mean))];
        }
      }
    }

    /** The half of a report that runs under the entry's lock. */
    method Take(m: Metrics, now: int, tick: int, total: Bytes) returns (row: Option<Metrics>, first: bool)
      requires Valid()
      modifies this
      ensures Valid() && first == (old(lastSeen) == 0)
      ensures var (after, stored) := Fold(old(Contents()), m, now, tick, total);
              && Contents() == after
              && row == match stored case None => None case Some(s) => Some(RowOf(s))
    {
      var minute := TruncDiv(now, 60);
      first := lastSeen == 0;
      var store := lastMinute != minute;
      metrics, lastSeen := Some(m), now;
      AddToMinute(m);
      row := None;
      if store {
        var r := WriteMeansInto(m);
        if mark.Some? {
          var elapsed := Elapsed(mark.value.at, tick);
          r := r["net_rx" := Int(Max(0, Minus(total.rx, mark.value.total.rx)) / elapsed)];
          r := r["net_tx" := Int(Max(0, Minus(total.tx, mark.value.total.tx)) / elapsed)];
        }
        row := Some(r);
        lastMinute := minute;
        mark := Some(Mark(tick, total));
        sums, reports, pending := seq(|AVERAGED|, _ => 0.0), 0, [];
      }
      if mark.None? {
        mark := Some(Mark(tick, total));
      }
    }
  }

  /** The hub's side of a report: the ledger, the live entries and the two tables written beside them. */
  class Hub {
    const db: Db
    var agents: map<int, Agent>
    var history: map<(int, int), Metrics>
    var seen: map<int, int>

    constructor (db: Db)
      ensures this.db == db && agents == map[] && history == map[] && seen == map[]
    {
      this.db := db;
      agents, history, seen := map[], map[], map[];
    }

    ghost predicate Valid()
      reads this, agents.Values
    {
      && (forall id :: id in agents ==> agents[id].Valid())
      && forall i, j :: i in agents && j in agents && i != j ==> agents[i] != agents[j]
    }

    /** A node connects: whatever entry it had gives way to a new one. */
    method Connect(nodeId: int, now: int)
      requires Valid()
      modifies this`agents
      ensures Valid() && agents.Keys == old(agents).Keys + {nodeId}
      ensures fresh(agents[nodeId]) && agents[nodeId].Contents() == Connected(now)
      ensures forall id :: id in old(agents) && id != nodeId ==> agents[id] == old(agents)[id]
    {
      var agent := new Agent(now);
      agents := agents[nodeId := agent];
    }

    /** A session ends or is retired: the node has no entry. */
    method Disconnect(nodeId: int)
      requires Valid()
      modifies this`agents
      ensures Valid() && agents == old(agents) - {nodeId}
    {
      agents := agents - {nodeId};
    }

    /** A report for a node with no session still books its bytes; it has no entry to move. */
    method Report(nodeId: int, payload: Option<Metrics>, now: int, tick: int, today: NaiveDate)
      returns (r: Result<Option<Metrics>, string>)
      requires Valid()
      modifies this`history, this`seen, db`traffic, if nodeId in agents then {agents[nodeId]} else {}
      ensures Valid()
      ensures r.Ok? <==>
        payload.Some? && Usable(payload.value) && nodeId in db.nodes && nodeId in old(db.traffic)
      ensures r.Err? ==> db.traffic == old(db.traffic) && history == old(history) && seen == old(seen)
      ensures r.Err? && nodeId in agents ==> agents[nodeId].Contents() == old(agents[nodeId].Contents())
      ensures r.Ok? ==> var m := payload.value;
        && db.traffic == old(db.traffic)[nodeId := Accumulated(old(db.traffic)[nodeId], BootId(m), Counters(m), today, db.nodes[nodeId])]
      ensures r.Ok? && nodeId !in agents ==> r.value == None && history == old(history) && seen == old(seen)
      ensures r.Ok? && nodeId in agents ==>
        var before := old(agents[nodeId].Contents());
        var feed := Feed(now, tick, payload.value, today, db.nodes[nodeId]);
        var (after, stored) := Step(State(old(db.traffic)[nodeId], before), feed);
        && State(db.traffic[nodeId], agents[nodeId].Contents()) == after
        && history == (match stored case None => old(history)
                       case Some(s) => old(history)[(nodeId, s.stamp) := RowOf(s)])
        && seen == (if stored.Some? || before.lastSeen == 0 then old(seen)[nodeId := now] else old(seen))
    {
      hide Usable, Counters, BootId, Injected, Fold, RowOf, PeriodStart, Gated, TruncDiv, Accumulated;
      if payload.None? || !Usable(payload.value) {
        return Err("invalid report");
      }
      var m := payload.value;
      var booked := db.Accumulate(nodeId, BootId(m), Counters(m), today);
      match booked {
        case Err(e) => return Err(e);
        case Ok(f) =>
          if nodeId !in agents {
            return Ok(None);
          }
          FoldStamps(agents[nodeId].Contents(), Injected(m, f), now, tick, f.total);
          var row, first := agents[nodeId].Take(Injected(m, f), now, tick, f.total);
          if row.Some? {
            history := history[(nodeId, TruncDiv(now, 60) * 60) := row.value];
          }
          if row.Some? || first {
            seen := seen[nodeId := now];
          }
          return Ok(row);
      }
    }
  }

  // ---- runs ----

  /** One usable report as the hub meets it. */
  datatype Feed = Feed(now: int, tick: int, metrics: Metrics, today: NaiveDate, resetDay: nat)

  /** A node's traffic row and its live entry. */
  datatype State = State(row: Row, entry: Entry)

  function Booked(row: Row, f: Feed): Row {
    Accumulated(row, BootId(f.metrics), Counters(f.metrics), f.today, f.resetDay)
  }

  function Shown(row: Row, f: Feed): Metrics {
    Injected(f.metrics, Read(Booked(row, f), f.today, f.resetDay))
  }

  function Step(s: State, f: Feed): (State, Option<Stored>) {
    var (entry, stored) := Fold(s.entry, Shown(s.row, f), f.now, f.tick, Booked(s.row, f).total);
    (State(Booked(s.row, f), entry), stored)
  }

  function After(s: State, f: Feed): State { Step(s, f).0 }

  function Emitted(s: State, f: Feed): seq<Stored> {
    match Step(s, f).1 case Some(row) => [row] case None => []
  }

  function RunTo(s: State, feeds: seq<Feed>): State
    decreases feeds
  {
    if feeds == [] then s else RunTo(After(s, feeds[0]), feeds[1..])
  }

  function Rows(s: State, feeds: seq<Feed>): seq<Stored>
    decreases feeds
  {
    if feeds == [] then [] else Emitted(s, feeds[0]) + Rows(After(s, feeds[0]), feeds[1..])
  }

  // ---- what a stored row carries ----

  /** The integer nearest to `x`, away from zero at a half; or the bound of an `i64` it lies beyond. */
  predicate IsNearest(v: int, x: real) {
    if x > I64_MAX as real then v == I64_MAX
    else if x < I64_MIN as real then v == I64_MIN
    else if x >= 0.0 then v as real - 0.5 <= x < v as real + 0.5
    else v as real - 0.5 < x <= v as real + 0.5
  }

  lemma RoundedIsNearest(x: real)
    ensures IsNearest(Rounded(x), x)
  {
  }

  /** `v` is the mean of that field over the reports: exact for the first field, to the nearest integer for the others. */
  predicate IsMeanOf(v: Json, reports: seq<Metrics>, slot: nat)
    requires reports != [] && slot < |AVERAGED|
  {
    var n := |reports| as real;
    if slot == 0 then v.Float? && v.x * n == Sum(reports, AVERAGED[slot])
    else v.Int? && IsNearest(v.n, Sum(reports, AVERAGED[slot]) / n)
  }

  lemma MeanIsMean(reports: seq<Metrics>, slot: nat)
    requires reports != [] && slot < |AVERAGED|
    ensures IsMeanOf(Mean(reports, slot), reports, slot)
  {
    hide Sum, Rounded, IsNearest;
    var sum, n := Sum(reports, AVERAGED[slot]), |reports| as real;
    assert n > 0.0;
    RoundedIsNearest(sum / n);
    QuotientTimes(sum, n);
  }

  lemma QuotientTimes(x: real, n: real)
    requires n > 0.0
    ensures (x / n) * n == x
  {
  }

  lemma FieldsAreDistinct(i: nat, j: nat)
    requires i < j < |AVERAGED|
    ensures AVERAGED[i] != AVERAGED[j]
  {
  }

  lemma {:induction false} MeansReplaceTheirFields(row: Metrics, reports: seq<Metrics>, slots: nat, key: string)
    requires reports != [] && slots <= |AVERAGED|
    ensures var out := WithMeans(row, reports, slots);
            && (key in out <==> key in row)
            && (forall k :: 0 <= k < slots && AVERAGED[k] == key && key in out ==> out[key] == Mean(reports, k))
            && (key in row && (forall k :: 0 <= k < slots ==> AVERAGED[k] != key) ==> out[key] == row[key])
  {
    hide Mean;
    if slots > 0 {
      MeansReplaceTheirFields(row, reports, slots - 1, key);
      forall k | 0 <= k < slots - 1 ensures AVERAGED[k] != AVERAGED[slots - 1] { FieldsAreDistinct(k, slots - 1); }
    }
  }

  /**
   * A stored row has the fields of the report that closed it. Those averaged are
   * means over every report of the minute; the two rates are what was gained over
   * the seconds it took, the received under `net_rx` and the sent under `net_tx`;
   * all others are as reported.
   */
  lemma RowsCarryMeansAndRates(s: Stored, key: string)
    requires s.of != [] && (s.since.Some? ==> 0 < s.since.value.elapsed)
    ensures var row, last := RowOf(s), s.of[|s.of| - 1];
            && (key in row <==> key in last || (s.since.Some? && (key == "net_rx" || key == "net_tx")))
            && (key in row && key !in AVERAGED && key != "net_rx" && key != "net_tx" ==> row[key] == last[key])
            && (forall slot :: 0 <= slot < |AVERAGED| && AVERAGED[slot] == key && key in row ==> IsMeanOf(row[key], s.of, slot))
  {
    var row, last := RowOf(s), s.of[|s.of| - 1];
    MeansReplaceTheirFields(last, s.of, |AVERAGED|, key);
    RatesAreNotAveraged();
    hide WithMeans, Mean, IsMeanOf, Rate;
    forall slot | 0 <= slot < |AVERAGED| && AVERAGED[slot] == key && key in row ensures IsMeanOf(row[key], s.of, slot) {
      MeanIsMean(s.of, slot);
    }
  }

  lemma RatesAreNotAveraged()
    ensures "net_rx" !in AVERAGED && "net_tx" !in AVERAGED
  {
  }

  /** The rate a row shows: bytes received a second under `net_rx`, sent under `net_tx`. */
  function ShownRate(row: Metrics, down: bool): int {
    var key := if down then "net_rx" else "net_tx";
    if key in row && row[key].Int? then row[key].n else 0
  }

  lemma RowsShowTheirRates(s: Stored, down: bool)
    requires Measured(s)
    ensures ShownRate(RowOf(s), down) == Rate(s.since.value, down)
  {
    hide WithMeans, Rate;
  }

  // ---- the chart against the totals ----

  predicate Measured(r: Stored) { r.of != [] && r.since.Some? && 0 < r.since.value.elapsed }

  /** What a chart sums over the rows as they are stored, each rate raised by `extra`. */
  function Integrated(rows: seq<Stored>, down: bool, extra: int): int
    requires forall i | 0 <= i < |rows| :: Measured(rows[i])
  {
    if rows == [] then 0
    else
      assert Measured(rows[0]);
      (ShownRate(RowOf(rows[0]), down) + extra) * rows[0].since.value.elapsed + Integrated(rows[1..], down, extra)
  }

  function Gains(rows: seq<Stored>, down: bool): int
    requires forall i | 0 <= i < |rows| :: Measured(rows[i])
  {
    if rows == [] then 0 else assert Measured(rows[0]); Side(rows[0].since.value.gained, down) + Gains(rows[1..], down)
  }

  lemma RateBoundsGain(span: Span, down: bool)
    requires 0 < span.elapsed && 0 <= Side(span.gained, down)
    ensures Rate(span, down) * span.elapsed <= Side(span.gained, down) < (Rate(span, down) + 1) * span.elapsed
  {
    var g, e := Side(span.gained, down), span.elapsed;
    assert g == e * (g / e) + g % e;
    assert (g / e) * e == e * (g / e) && (g / e + 1) * e == e * (g / e) + e;
  }

  lemma {:induction false} RatesBoundGains(rows: seq<Stored>, down: bool)
    requires forall i | 0 <= i < |rows| :: Measured(rows[i]) && 0 <= Side(rows[i].since.value.gained, down)
    ensures Integrated(rows, down, 0) <= Gains(rows, down)
    ensures if rows == [] then Gains(rows, down) == 0 else Gains(rows, down) < Integrated(rows, down, 1)
  {
    if rows != [] {
      hide Rate, RowOf, ShownRate;
      RateBoundsGain(rows[0].since.value, down);
      RowsShowTheirRates(rows[0], down);
      RatesBoundGains(rows[1..], down);
    }
  }

  /** Totals and marks as every run from connecting leaves them. */
  ghost predicate Sound(s: State) {
    && 0 <= s.row.total.rx && 0 <= s.row.total.tx
    && (s.entry.mark.Some? ==> var t := s.entry.mark.value.total;
          0 <= t.rx <= s.row.total.rx && 0 <= t.tx <= s.row.total.tx)
  }

  function Marked(s: State, down: bool): int
    requires s.entry.mark.Some?
  {
    Side(s.entry.mark.value.total, down)
  }

  lemma StepMovesTheMark(s: State, f: Feed, down: bool)
    requires Sound(s)
    ensures Sound(After(s, f)) && After(s, f).entry.mark.Some?
    ensures s.entry.mark.Some? ==>
      && (var rows := Emitted(s, f);
          forall i | 0 <= i < |rows| :: Measured(rows[i]) && 0 <= Side(rows[i].since.value.gained, down))
      && Marked(After(s, f), down) == Marked(s, down) + Gains(Emitted(s, f), down)
  {
    BookingNeverLowersTotals(s.row, f);
  }

  lemma BookingNeverLowersTotals(row: Row, f: Feed)
    ensures row.total.rx <= Booked(row, f).total.rx && row.total.tx <= Booked(row, f).total.tx
  {
  }

  lemma {:induction false} MarksGainWhatRowsCarry(s: State, feeds: seq<Feed>, down: bool)
    requires Sound(s) && s.entry.mark.Some?
    ensures Sound(RunTo(s, feeds)) && RunTo(s, feeds).entry.mark.Some?
    ensures var rows := Rows(s, feeds);
            forall i | 0 <= i < |rows| :: Measured(rows[i]) && 0 <= Side(rows[i].since.value.gained, down)
    ensures Marked(RunTo(s, feeds), down) == Marked(s, down) + Gains(Rows(s, feeds), down)
    decreases feeds
  {
    if feeds != [] {
      hide Fold, Booked, Shown;
      StepMovesTheMark(s, feeds[0], down);
      MarksGainWhatRowsCarry(After(s, feeds[0]), feeds[1..], down);
      var rest := Rows(After(s, feeds[0]), feeds[1..]);
      if Emitted(s, feeds[0]) != [] {
        assert Rows(s, feeds)[1..] == rest;
      } else {
        assert Rows(s, feeds) == rest;
      }
    }
  }

  /**
   * The chart integrates to the totals: from the first mark on, the rates times
   * the seconds they cover fall short of the bytes the totals gained by less than
   * one byte a second.
   */
  lemma ChartIntegratesToTotals(s: State, feeds: seq<Feed>, down: bool)
    requires Sound(s) && s.entry.mark.Some?
    ensures var (end, rows) := (RunTo(s, feeds), Rows(s, feeds));
            && end.entry.mark.Some? && (forall i | 0 <= i < |rows| :: Measured(rows[i]))
            && var gained := Marked(end, down) - Marked(s, down);
               Integrated(rows, down, 0) <= gained
               && (if rows == [] then gained == 0 else gained < Integrated(rows, down, 1))
  {
    MarksGainWhatRowsCarry(s, feeds, down);
    RatesBoundGains(Rows(s, feeds), down);
  }

  /**
   * What a stored row spans: the whole seconds since the mark, at least one, and the
   * bytes the totals gained since; it then moves the mark to the totals as they are.
   */
  lemma RowsSpanTheTimeSinceTheMark(s: State, f: Feed, down: bool)
    requires Sound(s) && Step(s, f).1.Some?
    ensures var s', row := After(s, f), Step(s, f).1.value;
            && s'.entry.mark == Some(Mark(f.tick, s'.row.total))
            && (row.since.Some? <==> s.entry.mark.Some?)
            && (row.since.Some? ==>
                  var passed := f.tick - s.entry.mark.value.at;
                  && row.since.value.elapsed * NANOS <= Max(NANOS, passed) < (row.since.value.elapsed + 1) * NANOS
                  && Side(row.since.value.gained, down) == Side(s'.row.total, down) - Marked(s, down))
  {
    StepMovesTheMark(s, f, down);
    BookingNeverLowersTotals(s.row, f);
    hide Booked, Shown;
  }

  /**
   * What any report leaves of the live entry: the payload and the time as they came
   * in; and if it is not stored, the minute and the mark as they were, but for a
   * first mark.
   */
  lemma ReportsMoveTheLiveView(s: State, f: Feed)
    ensures var s', stored := After(s, f), Step(s, f).1;
            && s'.entry.metrics == Some(Shown(s.row, f)) && s'.entry.lastSeen == f.now
            && (stored.None? ==>
                  && s'.entry.lastMinute == s.entry.lastMinute
                  && s'.entry.mark == Some(if s.entry.mark.Some? then s.entry.mark.value else Mark(f.tick, s'.row.total)))
            && (stored.Some? ==> s'.entry.lastMinute * 60 == stored.value.stamp && s'.entry.pending == [])
  {
    hide Booked, Shown;
  }

  /** From connecting: the first report sets the mark that every later row is measured from. */
  lemma FirstReportStartsTheChart(row: Row, connectedAt: int, f: Feed)
    requires 0 <= row.total.rx && 0 <= row.total.tx
    ensures var s := After(State(row, Connected(connectedAt)), f);
            Sound(s) && s.entry.mark == Some(Mark(f.tick, s.row.total))
  {
    StepMovesTheMark(State(row, Connected(connectedAt)), f, true);
  }

  // ---- every report counted once ----

  function Averaged(rows: seq<Stored>): seq<Metrics> {
    if rows == [] then [] else rows[0].of + Averaged(rows[1..])
  }

  function AllShown(row: Row, feeds: seq<Feed>): seq<Metrics>
    decreases feeds
  {
    if feeds == [] then [] else [Shown(row, feeds[0])] + AllShown(Booked(row, feeds[0]), feeds[1..])
  }

  lemma StepAveragesOrKeeps(s: State, f: Feed)
    ensures Averaged(Emitted(s, f)) + After(s, f).entry.pending == s.entry.pending + [Shown(s.row, f)]
  {
  }

  lemma AveragedAppends(a: seq<Stored>, b: seq<Stored>)
    requires |a| <= 1
    ensures Averaged(a + b) == Averaged(a) + Averaged(b)
  {
    if a != [] {
      assert (a + b)[1..] == b && Averaged(a) == a[0].of + [];
    } else {
      assert a + b == b;
    }
  }

  lemma Regroup<T>(now: seq<T>, later: seq<T>, end: seq<T>, kept: seq<T>, kept1: seq<T>, shown: seq<T>, told: seq<T>)
    requires now + kept1 == kept + shown && later + end == kept1 + told
    ensures (now + later) + end == kept + (shown + told)
  {
    assert (now + later) + end == now + (later + end);
    assert now + (kept1 + told) == (now + kept1) + told;
    assert kept + (shown + told) == (kept + shown) + told;
  }

  /** Every report is averaged into exactly one row or still pends, in order. */
  lemma {:induction false} EveryReportIsAveragedOnce(s: State, feeds: seq<Feed>)
    ensures Averaged(Rows(s, feeds)) + RunTo(s, feeds).entry.pending == s.entry.pending + AllShown(s.row, feeds)
    decreases feeds
  {
    if feeds != [] {
      var f, s1 := feeds[0], After(s, feeds[0]);
      StepAveragesOrKeeps(s, f);
      EveryReportIsAveragedOnce(s1, feeds[1..]);
      AveragedAppends(Emitted(s, f), Rows(s1, feeds[1..]));
      Regroup(Averaged(Emitted(s, f)), Averaged(Rows(s1, feeds[1..])), RunTo(s1, feeds[1..]).entry.pending,
              s.entry.pending, s1.entry.pending, [Shown(s.row, f)], AllShown(s1.row, feeds[1..]));
    }
  }

  // ---- stamps ----

  /** A node over time: sessions that connect, each followed by its reports. */
  datatype Life = Connect(now: int) | Told(feed: Feed)

  function Clock(l: Life): int { match l case Connect(now) => now case Told(f) => f.now }

  function Live(s: State, l: Life): State {
    match l case Connect(now) => s.(entry := Connected(now)) case Told(f) => After(s, f)
  }

  function StoredBy(s: State, l: Life): seq<Stored> {
    match l case Connect(_) => [] case Told(f) => Emitted(s, f)
  }

  function History(s: State, lives: seq<Life>): seq<Stored>
    decreases lives
  {
    if lives == [] then [] else StoredBy(s, lives[0]) + History(Live(s, lives[0]), lives[1..])
  }

  lemma StampsFollowTheMinute(s: State, l: Life)
    requires s.entry.lastMinute <= TruncDiv(Clock(l), 60)
    ensures s.entry.lastMinute <= Live(s, l).entry.lastMinute <= TruncDiv(Clock(l), 60)
    ensures |StoredBy(s, l)| <= 1
    ensures |StoredBy(s, l)| == 1 ==>
      s.entry.lastMinute * 60 < StoredBy(s, l)[0].stamp == Live(s, l).entry.lastMinute * 60
  {
  }

  ghost predicate ClockForward(from: int, lives: seq<Life>)
    decreases lives
  {
    lives == [] || (from <= Clock(lives[0]) && ClockForward(Clock(lives[0]), lives[1..]))
  }

  ghost predicate Rising(above: int, rows: seq<Stored>)
    decreases rows
  {
    rows == [] || (above < rows[0].stamp && Rising(rows[0].stamp, rows[1..]))
  }

  lemma {:induction false} RisingStampsDiffer(above: int, rows: seq<Stored>)
    requires Rising(above, rows)
    ensures forall i :: 0 <= i < |rows| ==> above < rows[i].stamp
    ensures forall i, j :: 0 <= i < j < |rows| ==> rows[i].stamp < rows[j].stamp
    decreases rows
  {
    if rows != [] {
      RisingStampsDiffer(rows[0].stamp, rows[1..]);
    }
  }

  lemma {:induction false} StampsRise(s: State, lives: seq<Life>, from: int)
    requires s.entry.lastMinute <= TruncDiv(from, 60) && ClockForward(from, lives)
    ensures Rising(s.entry.lastMinute * 60, History(s, lives))
    decreases lives
  {
    if lives != [] {
      TruncDivMonotone(from, Clock(lives[0]), 60);
      StampsFollowTheMinute(s, lives[0]);
      StampsRise(Live(s, lives[0]), lives[1..], Clock(lives[0]));
      var now, rest := StoredBy(s, lives[0]), History(Live(s, lives[0]), lives[1..]);
      assert if now == [] then History(s, lives) == rest else History(s, lives)[1..] == rest;
    }
  }

  /**
   * While the wall clock does not step back no history row is ever written twice,
   * not even by the session a reconnect opens in a minute already stored.
   */
  lemma HistoryRowsAreNeverOverwritten(s: State, lives: seq<Life>, from: int)
    requires s.entry.lastMinute <= TruncDiv(from, 60) && ClockForward(from, lives)
    ensures var rows := History(s, lives);
            && (forall i :: 0 <= i < |rows| ==> s.entry.lastMinute * 60 < rows[i].stamp)
            && (forall i, j :: 0 <= i < j < |rows| ==> rows[i].stamp < rows[j].stamp)
  {
    StampsRise(s, lives, from);
    RisingStampsDiffer(s.entry.lastMinute * 60, History(s, lives));
  }
}

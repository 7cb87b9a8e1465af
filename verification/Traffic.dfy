/**
 * The traffic ledger: raw kernel counters folded into lifetime, month and day
 * figures. Month and day restart lazily, on the first report past a boundary,
 * and the reader gates what it returns on the period each figure was stamped
 * with. The proofs compare this store with an eager ledger that zeroes a figure
 * the moment its period ends.
 */
module Traffic {
  import opened Basics
  import opened Calendar

  datatype Bytes = Bytes(rx: i64, tx: i64)

  const NOTHING := Bytes(0, 0)

  function Add(a: Bytes, b: Bytes): Bytes { Bytes(SatAdd(a.rx, b.rx), SatAdd(a.tx, b.tx)) }

  /** How far a counter climbed; a counter that shrank climbed nowhere. */
  function Climb(from: i64, to: i64): i64 { Max(0, SatSub(to, from)) }

  /** One row of `traffic`; a date column is empty until it is first written. */
  datatype Row = Row(boot: string, last: Bytes, total: Bytes,
                     month: Bytes, monthStart: Option<NaiveDate>,
                     day: Bytes, dayStart: Option<NaiveDate>)

  const FRESH := Row("", NOTHING, NOTHING, NOTHING, None, NOTHING, None)

  /** What a reader is told about a node. */
  datatype Figures = Figures(total: Bytes, month: Bytes, monthStart: NaiveDate, day: Bytes)

  datatype Patch = Patch(totalRx: Option<i64>, totalTx: Option<i64>, monthRx: Option<i64>, monthTx: Option<i64>)

  function Or(patched: Option<i64>, kept: i64): i64 {
    match patched case Some(v) => v case None => kept
  }

  // ---- the lazy store ----

  /** The bytes one report books: none without a baseline under this very boot. */
  function Delta(boot: string, last: Bytes, reporting: string, now: Bytes): Bytes {
    if boot == "" || boot != reporting then NOTHING
    else Bytes(Climb(last.rx, now.rx), Climb(last.tx, now.tx))
  }

  /** The gate every reader goes through. */
  function Read(row: Row, today: NaiveDate, resetDay: nat): Figures {
    var period := PeriodStart(today, resetDay);
    Figures(row.total,
            if row.monthStart == Some(period) then row.month else NOTHING,
            period,
            if row.dayStart == Some(today) then row.day else NOTHING)
  }

  /** A total always shows; a month or day figure only under the stamp of the period now in force. */
  predicate Gated(row: Row, f: Figures, today: NaiveDate, resetDay: nat) {
    && f.total == row.total
    && f.monthStart == PeriodStart(today, resetDay)
    && (row.monthStart == Some(f.monthStart) ==> f.month == row.month)
    && (row.monthStart != Some(f.monthStart) ==> f.month == NOTHING)
    && (row.dayStart == Some(today) ==> f.day == row.day)
    && (row.dayStart != Some(today) ==> f.day == NOTHING)
  }

  /** The row with whatever the reader would hide already dropped and restamped. */
  function Rolled(row: Row, today: NaiveDate, resetDay: nat): Row {
    var seen := Read(row, today, resetDay);
    row.(month := seen.month, monthStart := Some(seen.monthStart), day := seen.day, dayStart := Some(today))
  }

  function Accumulated(row: Row, boot: string, counters: Option<Bytes>, today: NaiveDate, resetDay: nat): Row {
    match counters
    case None => row
    case Some(now) =>
      var d := Delta(row.boot, row.last, boot, now);
      var r := Rolled(row, today, resetDay);
      r.(boot := boot, last := now, total := Add(r.total, d), month := Add(r.month, d), day := Add(r.day, d))
  }

  function Corrected(row: Row, p: Patch, today: NaiveDate, resetDay: nat): Row {
    var seen := Read(row, today, resetDay);
    row.(total := Bytes(Or(p.totalRx, row.total.rx), Or(p.totalTx, row.total.tx)),
         month := Bytes(Or(p.monthRx, seen.month.rx), Or(p.monthTx, seen.month.tx)),
         monthStart := Some(seen.monthStart))
  }

  /** The tables these statements touch: each node's reset day and its traffic row. */
  class Db {
    var nodes: map<int, nat>
    var traffic: map<int, Row>

    constructor ()
      ensures nodes == map[] && traffic == map[]
    {
      nodes, traffic := map[], map[];
    }

    function AllTraffic(today: NaiveDate): (seen: map<int, Figures>)
      reads this
      ensures seen.Keys == traffic.Keys * nodes.Keys
      ensures forall id <- seen :: Gated(traffic[id], seen[id], today, nodes[id])
    {
      map id | id in traffic && id in nodes :: Read(traffic[id], today, nodes[id])
    }

    /**
     * What is returned is what a reader would be told next, whether or not the
     * report carried counters and so whether or not anything was written.
     */
    method Accumulate(nodeId: int, boot: string, counters: Option<Bytes>, today: NaiveDate)
      returns (r: Result<Figures, string>)
      modifies this`traffic
      ensures nodeId !in nodes || nodeId !in old(traffic) ==> r.Err? && traffic == old(traffic)
      ensures nodeId in nodes && nodeId in old(traffic) ==>
        && traffic == old(traffic)[nodeId := Accumulated(old(traffic)[nodeId], boot, counters, today, nodes[nodeId])]
        && r.Ok? && r.value.total == traffic[nodeId].total
        && r.value == AllTraffic(today)[nodeId]
    {
      if nodeId !in nodes || nodeId !in traffic {
        return Err("query returned no rows");
      }
      var row := traffic[nodeId];
      var total, month, day := row.total, row.month, row.day;
      var d := NOTHING;
      match counters {
        case None =>
        case Some(now) =>
          if row.boot != "" && row.boot == boot {
            d := Bytes(Max(SatSub(now.rx, row.last.rx), 0), Max(SatSub(now.tx, row.last.tx), 0));
          }
      }
      total, month, day := Add(total, d), Add(month, d), Add(day, d);
      var period := PeriodStart(today, nodes[nodeId]);
      if row.monthStart != Some(period) {
        month := d;
      }
      if row.dayStart != Some(today) {
        day := d;
      }
      match counters {
        case None =>
        case Some(now) =>
          traffic := traffic[nodeId := Row(boot, now, total, month, Some(period), day, Some(today))];
      }
      r := Ok(Figures(total, month, period, day));
    }

    /** Sets what the panel patched and keeps what a reader would have been told. */
    method SetTraffic(nodeId: int, p: Patch, today: NaiveDate) returns (found: bool)
      modifies this`traffic
      ensures found == (nodeId in nodes)
      ensures traffic ==
        if found && nodeId in old(traffic)
        then old(traffic)[nodeId := Corrected(old(traffic)[nodeId], p, today, nodes[nodeId])]
        else old(traffic)
    {
      if nodeId !in nodes {
        return false;
      }
      var period := PeriodStart(today, nodes[nodeId]);
      if nodeId in traffic {
        var row := traffic[nodeId];
        var kept := if row.monthStart == Some(period) then row.month else NOTHING;
        row := row.(total := Bytes(Or(p.totalRx, row.total.rx), Or(p.totalTx, row.total.tx)),
                    month := Bytes(Or(p.monthRx, kept.rx), Or(p.monthTx, kept.tx)),
                    monthStart := Some(period));
        traffic := traffic[nodeId := row];
      }
      return true;
    }
  }

  // ---- the eager ledger ----

  datatype What = Report(boot: string, counters: Option<Bytes>) | Correct(patch: Patch)

  /** One event of a node's life, with the hub's date and the reset day then in force. */
  datatype Event = Event(today: NaiveDate, resetDay: nat, what: What)

  function LazyStep(row: Row, e: Event): Row {
    match e.what
    case Report(boot, counters) => Accumulated(row, boot, counters, e.today, e.resetDay)
    case Correct(p) => Corrected(row, p, e.today, e.resetDay)
  }

  function LazyRun(row: Row, events: seq<Event>): Row
    decreases events
  {
    if events == [] then row else LazyRun(LazyStep(row, events[0]), events[1..])
  }

  datatype Ledger = Ledger(boot: string, last: Bytes, figures: Figures, date: NaiveDate)

  /** Time passes: a month or a day that ended is over, whoever is or is not reporting. */
  function Advance(l: Ledger, today: NaiveDate, resetDay: nat): Ledger {
    var period := PeriodStart(today, resetDay);
    var f := l.figures;
    l.(date := today,
       figures := f.(month := if period == f.monthStart then f.month else NOTHING,
                     monthStart := period,
                     day := if today == l.date then f.day else NOTHING))
  }

  function Overwrite(f: Figures, p: Patch): Figures {
    f.(total := Bytes(Or(p.totalRx, f.total.rx), Or(p.totalTx, f.total.tx)),
       month := Bytes(Or(p.monthRx, f.month.rx), Or(p.monthTx, f.month.tx)))
  }

  function EagerStep(l: Ledger, e: Event): Ledger {
    var l := Advance(l, e.today, e.resetDay);
    match e.what
    case Correct(p) => l.(figures := Overwrite(l.figures, p))
    case Report(_, None) => l
    case Report(boot, Some(now)) =>
      var d := Delta(l.boot, l.last, boot, now);
      var f := l.figures;
      l.(boot := boot, last := now,
         figures := f.(total := Add(f.total, d), month := Add(f.month, d), day := Add(f.day, d)))
  }

  function EagerRun(l: Ledger, events: seq<Event>): Ledger
    decreases events
  {
    if events == [] then l else EagerRun(EagerStep(l, events[0]), events[1..])
  }

  function Opened(today: NaiveDate, resetDay: nat): Ledger {
    Ledger("", NOTHING, Figures(NOTHING, NOTHING, PeriodStart(today, resetDay), NOTHING), today)
  }

  function InForce(e: Event): NaiveDate { PeriodStart(e.today, e.resetDay) }

  ghost predicate DatesForward(date: NaiveDate, events: seq<Event>)
    decreases events
  {
    events == [] || (Leq(date, events[0].today) && DatesForward(events[0].today, events[1..]))
  }

  /** The lazy row and the ledger hold the same figures wherever the row's stamp is current. */
  ghost predicate Agrees(row: Row, l: Ledger) {
    && row.boot == l.boot && row.last == l.last && row.total == l.figures.total
    && (if row.monthStart == Some(l.figures.monthStart) then row.month == l.figures.month else l.figures.month == NOTHING)
    && (if row.dayStart == Some(l.date) then row.day == l.figures.day
        else l.figures.day == NOTHING && (row.dayStart.Some? ==> Before(row.dayStart.value, l.date)))
  }

  /**
   * A figure that was over comes back: the row's stamp is the period now in force
   * though another was in force at the event before, `last`.
   */
  predicate StaleReturns(row: Row, last: NaiveDate, e: Event) {
    row.monthStart == Some(InForce(e)) && last != InForce(e) && row.month != NOTHING
  }

  lemma AgreementSurvivesAStep(row: Row, l: Ledger, e: Event)
    requires Agrees(row, l) && Leq(l.date, e.today)
    ensures Read(row, e.today, e.resetDay) == Advance(l, e.today, e.resetDay).figures
            <==> !StaleReturns(row, l.figures.monthStart, e)
    ensures !StaleReturns(row, l.figures.monthStart, e) ==>
      && Agrees(LazyStep(row, e), EagerStep(l, e))
      && Read(LazyStep(row, e), e.today, e.resetDay) == EagerStep(l, e).figures
    ensures EagerStep(l, e).figures.monthStart == InForce(e) && EagerStep(l, e).date == e.today
  {
    hide PeriodStart;
    if !StaleReturns(row, l.figures.monthStart, e) { StepFromAdvance(row, l, e); }
  }

  /** Where the reader agrees with the ledger brought up to date, the event leaves them agreeing. */
  lemma StepFromAdvance(row: Row, l: Ledger, e: Event)
    requires Agrees(row, l) && Leq(l.date, e.today)
    requires Read(row, e.today, e.resetDay) == Advance(l, e.today, e.resetDay).figures
    ensures Agrees(LazyStep(row, e), EagerStep(l, e))
    ensures Read(LazyStep(row, e), e.today, e.resetDay) == EagerStep(l, e).figures
  {
    hide PeriodStart, Delta, Add;
  }

  // ---- runs ----

  /** At every event of the run, a reader is told what the ledger would tell. */
  ghost predicate EveryReadAgrees(row: Row, l: Ledger, events: seq<Event>)
    decreases events
  {
    events == [] ||
    (var e := events[0];
     && Read(row, e.today, e.resetDay) == Advance(l, e.today, e.resetDay).figures
     && EveryReadAgrees(LazyStep(row, e), EagerStep(l, e), events[1..]))
  }

  /** No event of the run brings a figure back that was over. */
  predicate NoneReturns(row: Row, last: NaiveDate, events: seq<Event>)
    decreases events
  {
    events == [] ||
    (!StaleReturns(row, last, events[0]) && NoneReturns(LazyStep(row, events[0]), InForce(events[0]), events[1..]))
  }

  lemma {:induction false} ReadsAgreeUnlessAFigureReturns(row: Row, l: Ledger, events: seq<Event>)
    requires Agrees(row, l) && DatesForward(l.date, events)
    ensures EveryReadAgrees(row, l, events) <==> NoneReturns(row, l.figures.monthStart, events)
    ensures NoneReturns(row, l.figures.monthStart, events) ==> Agrees(LazyRun(row, events), EagerRun(l, events))
    decreases events
  {
    if events != [] {
      hide Agrees, StaleReturns;
      AgreementSurvivesAStep(row, l, events[0]);
      if !StaleReturns(row, l.figures.monthStart, events[0]) {
        ReadsAgreeUnlessAFigureReturns(LazyStep(row, events[0]), EagerStep(l, events[0]), events[1..]);
      }
    }
  }

  /**
   * The lazy store refines the eager ledger: over any run from an empty row with
   * the dates in order, whatever reset days are in force, every read is exactly
   * what a ledger that zeroes on time would tell -- if and only if no reset day
   * brings back the period a month figure was stamped with after another was in
   * force.
   */
  lemma LazyRolloverRefinesEagerLedger(start: NaiveDate, resetDay: nat, events: seq<Event>)
    requires DatesForward(start, events)
    ensures EveryReadAgrees(FRESH, Opened(start, resetDay), events)
            <==> NoneReturns(FRESH, PeriodStart(start, resetDay), events)
  {
    ReadsAgreeUnlessAFigureReturns(FRESH, Opened(start, resetDay), events);
  }

  /** The period in force never steps back either. */
  ghost predicate Forward(date: NaiveDate, period: NaiveDate, events: seq<Event>)
    decreases events
  {
    events == [] ||
    (var e := events[0];
     && Leq(date, e.today) && Leq(period, InForce(e)) && Forward(e.today, InForce(e), events[1..]))
  }

  lemma {:induction false} NothingReturnsGoingForward(row: Row, date: NaiveDate, last: NaiveDate, events: seq<Event>)
    requires Forward(date, last, events)
    requires row.monthStart.Some? ==> Leq(row.monthStart.value, last)
    ensures DatesForward(date, events) && NoneReturns(row, last, events)
    decreases events
  {
    if events != [] {
      hide PeriodStart;
      NothingReturnsGoingForward(LazyStep(row, events[0]), events[0].today, InForce(events[0]), events[1..]);
    }
  }

  /** In particular, where the period never steps back whoever reads next is told what the ledger would tell. */
  lemma PeriodsInOrderNeedNoCondition(start: NaiveDate, resetDay: nat, events: seq<Event>, reader: Event)
    requires Forward(start, PeriodStart(start, resetDay), events + [reader])
    ensures EveryReadAgrees(FRESH, Opened(start, resetDay), events + [reader])
    ensures Read(LazyRun(FRESH, events), reader.today, reader.resetDay)
         == Advance(EagerRun(Opened(start, resetDay), events), reader.today, reader.resetDay).figures
  {
    NothingReturnsGoingForward(FRESH, start, PeriodStart(start, resetDay), events + [reader]);
    LazyRolloverRefinesEagerLedger(start, resetDay, events + [reader]);
    LastReadAgrees(FRESH, Opened(start, resetDay), events, reader);
  }

  lemma {:induction false} LastReadAgrees(row: Row, l: Ledger, events: seq<Event>, reader: Event)
    requires EveryReadAgrees(row, l, events + [reader])
    ensures Read(LazyRun(row, events), reader.today, reader.resetDay)
         == Advance(EagerRun(l, events), reader.today, reader.resetDay).figures
    decreases events
  {
    if events != [] {
      assert (events + [reader])[1..] == events[1..] + [reader];
      LastReadAgrees(LazyStep(row, events[0]), EagerStep(l, events[0]), events[1..], reader);
    }
  }

  /** With one reset day throughout, a run of non-decreasing dates is all it takes. */
  lemma {:induction false} FixedResetDayMovesForward(date: NaiveDate, resetDay: nat, events: seq<Event>)
    requires forall i :: 0 <= i < |events| ==> events[i].resetDay == resetDay && Leq(date, events[i].today)
    requires forall i, j :: 0 <= i < j < |events| ==> Leq(events[i].today, events[j].today)
    ensures Forward(date, PeriodStart(date, resetDay), events)
    decreases events
  {
    if events != [] {
      PeriodStartIsMonotone(date, events[0].today, resetDay);
      FixedResetDayMovesForward(events[0].today, resetDay, events[1..]);
    }
  }

  /**
   * A figure can indeed return: a reset day edited from 1 to 20
   * and back to 1 between two reports makes a figure the reader had already been
   * told was over current again.
   */
  lemma StalePeriodCanReturnWhenResetDayIsEdited()
    ensures var d := Date(2026, 3, 25);
            var idle := (rd: nat) => Event(d, rd, Report("b", None));
            var events := [Event(d, 1, Report("b", Some(Bytes(0, 0)))), Event(d, 1, Report("b", Some(Bytes(100, 0)))),
                           idle(20), idle(1)];
            && Read(LazyRun(FRESH, events[..3]), d, 20).month == NOTHING
            && Read(LazyRun(FRESH, events), d, 1).month == Bytes(100, 0)
            && EagerRun(Opened(d, 1), events).figures.month == NOTHING
  {
    var d := Date(2026, 3, 25);
    var idle := (rd: nat) => Event(d, rd, Report("b", None));
    var e0, e1 := Event(d, 1, Report("b", Some(Bytes(0, 0)))), Event(d, 1, Report("b", Some(Bytes(100, 0))));
    var events := [e0, e1, idle(20), idle(1)];
    var row := LazyStep(LazyStep(FRESH, e0), e1);
    assert row.month == Bytes(100, 0) && row.monthStart == Some(Date(2026, 3, 1));
    LazyRunOfFour(FRESH, e0, e1, idle(20), idle(1));
    EagerRunOfFour(Opened(d, 1), e0, e1, idle(20), idle(1));
    assert events[..3] == [e0, e1, idle(20)];
    LazyRunOfThree(FRESH, e0, e1, idle(20));
  }

  lemma LazyRunOfThree(row: Row, a: Event, b: Event, c: Event)
    ensures LazyRun(row, [a, b, c]) == LazyStep(LazyStep(LazyStep(row, a), b), c)
  {
    assert [a, b, c][1..] == [b, c] && [b, c][1..] == [c] && [c][1..] == [];
    assert LazyRun(LazyStep(LazyStep(row, a), b), [c]) == LazyStep(LazyStep(LazyStep(row, a), b), c);
  }

  lemma LazyRunOfFour(row: Row, a: Event, b: Event, c: Event, d: Event)
    ensures LazyRun(row, [a, b, c, d]) == LazyStep(LazyStep(LazyStep(LazyStep(row, a), b), c), d)
  {
    assert [a, b, c, d][1..] == [b, c, d];
    LazyRunOfThree(LazyStep(row, a), b, c, d);
  }

  lemma EagerRunOfFour(l: Ledger, a: Event, b: Event, c: Event, d: Event)
    ensures EagerRun(l, [a, b, c, d]) == EagerStep(EagerStep(EagerStep(EagerStep(l, a), b), c), d)
  {
    assert [a, b, c, d][1..] == [b, c, d] && [b, c, d][1..] == [c, d] && [c, d][1..] == [d] && [d][1..] == [];
    var l1 := EagerStep(l, a);
    var l2 := EagerStep(l1, b);
    assert EagerRun(EagerStep(l2, c), [d]) == EagerStep(EagerStep(l2, c), d);
    assert EagerRun(l1, [b, c, d]) == EagerRun(l2, [c, d]);
  }

  predicate Patched(patch: Option<i64>, before: i64, after: i64) {
    (patch.None? ==> after == before) && (patch.Some? ==> after == patch.value)
  }

  /** A correction shows the next reader the patched fields and nothing else changed. */
  lemma CorrectionChangesExactlyThePatchedFields(row: Row, p: Patch, today: NaiveDate, resetDay: nat)
    ensures var row' := Corrected(row, p, today, resetDay);
            var before, after := Read(row, today, resetDay), Read(row', today, resetDay);
            && Patched(p.totalRx, before.total.rx, after.total.rx) && Patched(p.totalTx, before.total.tx, after.total.tx)
            && Patched(p.monthRx, before.month.rx, after.month.rx) && Patched(p.monthTx, before.month.tx, after.month.tx)
            && after.monthStart == before.monthStart && after.day == before.day
            && row'.boot == row.boot && row'.last == row.last
  {
  }

  // ---- conservation ----

  datatype Reading = Reading(boot: string, at: Bytes)

  function Side(b: Bytes, down: bool): i64 { if down then b.rx else b.tx }

  /** The readable reports of a run, in order. */
  function Readings(events: seq<Event>): seq<Reading> {
    if events == [] then []
    else
      match events[0].what
      case Report(boot, Some(now)) => [Reading(boot, now)] + Readings(events[1..])
      case _ => Readings(events[1..])
  }

  /**
   * Bytes climbed between consecutive readings under one boot: the difference where
   * the later one is higher -- the most a counter can show, where they are further
   * apart than that -- and nothing where it is not.
   */
  function Climbed(from: Reading, rs: seq<Reading>, down: bool): nat
    decreases rs
  {
    if rs == [] then 0
    else
      var was, now := Side(from.at, down), Side(rs[0].at, down);
      var gain := if from.boot != "" && from.boot == rs[0].boot && was < now then Min(I64_MAX, now - was) else 0;
      gain + Climbed(rs[0], rs[1..], down)
  }

  ghost predicate OnlyReports(events: seq<Event>) {
    forall i :: 0 <= i < |events| ==> events[i].what.Report?
  }

  /** A figure after a report: what it stood at, or zero where its period is over, and the bytes climbed, capped. */
  predicate Gains(before: i64, after: i64, same: bool, was: i64, now: i64) {
    after == Min(I64_MAX, before + if same && was < now then Min(I64_MAX, now - was) else 0)
  }

  /**
   * What one report adds to each figure, and the reading it leaves. A counter that
   * shrank under its own boot adds nothing, nor does a first reading, nor one
   * under another boot.
   */
  lemma OneReportGains(row: Row, e: Event, down: bool)
    requires e.what.Report?
    ensures var row' := LazyStep(row, e);
            match e.what.counters
            case None => row' == row
            case Some(now) =>
              && row'.boot == e.what.boot && row'.last == now
              && row'.monthStart == Some(InForce(e)) && row'.dayStart == Some(e.today)
              && var same, was, at := row.boot != "" && row.boot == e.what.boot, Side(row.last, down), Side(now, down);
                 && Gains(Side(row.total, down), Side(row'.total, down), same, was, at)
                 && Gains(if row.monthStart == row'.monthStart then Side(row.month, down) else 0,
                          Side(row'.month, down), same, was, at)
                 && Gains(if row.dayStart == row'.dayStart then Side(row.day, down) else 0, Side(row'.day, down), same, was, at)
  {
    hide PeriodStart, Delta, Add, Side;
    match e.what.counters
    case None =>
    case Some(now) =>
      var seen, d := Read(row, e.today, e.resetDay), Delta(row.boot, row.last, e.what.boot, now);
      DeltaIsTheRise(row.boot, row.last, e.what.boot, now, down);
      AddingCaps(seen.total, d, down);
      AddingCaps(seen.month, d, down);
      AddingCaps(seen.day, d, down);
      NothingHasNoSide(down);
  }

  lemma DeltaIsTheRise(boot: string, last: Bytes, reporting: string, now: Bytes, down: bool)
    ensures var was, at := Side(last, down), Side(now, down);
            Side(Delta(boot, last, reporting, now), down)
            == if boot != "" && boot == reporting && was < at then Min(I64_MAX, at - was) else 0
  {
  }

  lemma AddingCaps(a: Bytes, b: Bytes, down: bool)
    requires 0 <= Side(b, down)
    ensures Side(Add(a, b), down) == Min(I64_MAX, Side(a, down) + Side(b, down))
  {
  }

  lemma NothingHasNoSide(down: bool)
    ensures Side(NOTHING, down) == 0
  {
  }

  /**
   * Between corrections a total gains every byte a counter was seen to climb and
   * no other. Adding with saturation at each report is the same as adding it all
   * and capping once.
   */
  lemma {:induction false} BytesAreConserved(row: Row, events: seq<Event>, down: bool)
    requires OnlyReports(events)
    ensures Side(LazyRun(row, events).total, down)
         == Min(I64_MAX, Side(row.total, down) + Climbed(Reading(row.boot, row.last), Readings(events), down))
    decreases events
  {
    if events != [] {
      var e := events[0];
      OneReportGains(row, e, down);
      FirstReadingClimbs(Reading(row.boot, row.last), events, down);
      hide LazyStep, Side, Readings, Climbed;
      BytesAreConserved(LazyStep(row, e), events[1..], down);
    } else {
      assert Readings(events) == [];
    }
  }

  lemma FirstReadingClimbs(from: Reading, events: seq<Event>, down: bool)
    requires events != [] && events[0].what.Report?
    ensures var e, rest := events[0].what, Readings(events[1..]);
            match e.counters
            case None => Readings(events) == rest
            case Some(now) =>
              var was, at := Side(from.at, down), Side(now, down);
              Climbed(from, Readings(events), down) == Climbed(Reading(e.boot, now), rest, down)
                + if from.boot != "" && from.boot == e.boot && was < at then Min(I64_MAX, at - was) else 0
  {
    hide Side;
    if events[0].what.counters.Some? {
      var rest := Readings(events[1..]);
      assert ([Reading(events[0].what.boot, events[0].what.counters.value)] + rest)[1..] == rest;
    }
  }

  lemma TotalsNeverFall(row: Row, events: seq<Event>, down: bool)
    requires OnlyReports(events)
    ensures Side(row.total, down) <= Side(LazyRun(row, events).total, down)
  {
    BytesAreConserved(row, events, down);
  }

  /** Reports without readable counters leave the row as it was. */
  lemma {:induction false} UnreadableReportsChangeNothing(row: Row, events: seq<Event>)
    requires OnlyReports(events) && Readings(events) == []
    ensures LazyRun(row, events) == row
    decreases events
  {
    if events != [] {
      UnreadableReportsChangeNothing(row, events[1..]);
    }
  }

  /** Two machines taking turns under one token book nothing between them. */
  lemma {:induction false} AlternatingBootsClimbNothing(from: Reading, rs: seq<Reading>, down: bool)
    requires var all := [from] + rs; forall i :: 0 <= i < |rs| ==> all[i].boot != all[i + 1].boot
    ensures Climbed(from, rs, down) == 0
    decreases rs
  {
    if rs != [] {
      Shifted(from, rs);
      AlternatingBootsClimbNothing(rs[0], rs[1..], down);
    }
  }

  /** One boot whose counters never shrink books exactly the last reading minus the first. */
  lemma {:induction false} SteadyCountersClimbTheirDifference(from: Reading, rs: seq<Reading>, down: bool)
    requires from.boot != "" && 0 <= Side(from.at, down)
    requires var all := [from] + rs;
             forall i :: 0 <= i < |rs| ==>
               all[i + 1].boot == all[i].boot && Side(all[i].at, down) <= Side(all[i + 1].at, down)
    ensures Climbed(from, rs, down) == Side(([from] + rs)[|rs|].at, down) - Side(from.at, down)
    decreases rs
  {
    if rs != [] {
      Shifted(from, rs);
      SteadyCountersClimbTheirDifference(rs[0], rs[1..], down);
    }
  }

  /** Readings that never rise book nothing: what is left of a counter that shrank was booked before. */
  lemma {:induction false} FallingCountersBookNothing(row: Row, events: seq<Event>, down: bool)
    requires OnlyReports(events)
    requires var all := [Reading(row.boot, row.last)] + Readings(events);
             forall i :: 0 <= i < |all| - 1 ==> Side(all[i + 1].at, down) <= Side(all[i].at, down)
    ensures Side(LazyRun(row, events).total, down) == Side(row.total, down)
  {
    BytesAreConserved(row, events, down);
    NothingClimbsFalling(Reading(row.boot, row.last), Readings(events), down);
  }

  lemma {:induction false} NothingClimbsFalling(from: Reading, rs: seq<Reading>, down: bool)
    requires var all := [from] + rs; forall i :: 0 <= i < |rs| ==> Side(all[i + 1].at, down) <= Side(all[i].at, down)
    ensures Climbed(from, rs, down) == 0
    decreases rs
  {
    if rs != [] {
      Shifted(from, rs);
      NothingClimbsFalling(rs[0], rs[1..], down);
    }
  }

  lemma Shifted(from: Reading, rs: seq<Reading>)
    requires rs != []
    ensures ([from] + rs)[0] == from && ([from] + rs)[1] == rs[0]
    ensures var all, rest := [from] + rs, [rs[0]] + rs[1..]; rest == all[1..]
  {
  }
}

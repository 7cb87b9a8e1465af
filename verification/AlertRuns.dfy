/**
 * What the sweep promises over whole runs: how far apart offline alerts are,
 * that offline and online alternate across restarts, what an alert implies about
 * the node, and how often a traffic step is announced.
 */
module AlertRuns {
  import opened Basics
  import opened Calendar
  import opened Alerts
  import Traffic

  // ---- one process ----

  function After(p: Presence, looks: seq<Look>): Presence {
    if looks == [] then p else Seen(After(p, looks[..|looks| - 1]), looks[|looks| - 1])
  }

  /** The times at which a run of sweeps announced the node offline. */
  function OfflineAt(p: Presence, looks: seq<Look>): seq<int> {
    if looks == [] then []
    else
      var front, l := looks[..|looks| - 1], looks[|looks| - 1];
      OfflineAt(p, front) + if Announced(After(p, front), l) == Offline then [l.now] else []
  }

  predicate TimeForward(looks: seq<Look>) {
    forall i, j :: 0 <= i < j < |looks| ==> looks[i].now <= looks[j].now
  }

  /** What the settings allow: see `Alerts.Grace`. */
  predicate GraceCapped(looks: seq<Look>) { forall i :: 0 <= i < |looks| ==> looks[i].grace <= FLAP_GRACE }

  predicate Legit(looks: seq<Look>) {
    TimeForward(looks) && GraceCapped(looks) && forall i :: 0 <= i < |looks| ==> 60 <= looks[i].grace
  }

  /** A return from an announced outage counts as one: the absence lasted the grace period then set. */
  predicate Counted(p: Presence, l: Look) {
    l.online && p.downSince > 0 && p.memory.absent.Some? ==> l.now - p.memory.absent.value >= l.grace
  }

  /** Every return from an outage this process announced counts. */
  predicate ReturnsCounted(p: Presence, looks: seq<Look>) {
    looks == [] ||
    (var front := looks[..|looks| - 1];
     && ReturnsCounted(p, front)
     && (OfflineAt(p, front) != [] ==> Counted(After(p, front), looks[|looks| - 1])))
  }

  /**
   * After an alert at `t` the outage still lasts, begun a full wait earlier; or it
   * ended in a return the process remembers, no earlier than `t`.
   */
  ghost predicate RemembersAlert(p: Presence, t: int, now: int) {
    && t <= now
    && (p.downSince > 0 ==>
          && p.memory.absent.Some?
          && (p.memory.returned.Some? && p.memory.absent.value - p.memory.returned.value < FLAP_WINDOW ==>
                t - p.memory.absent.value >= FLAP_GRACE))
    && (p.downSince == 0 ==>
          && p.memory.returned.Some? && t <= p.memory.returned.value <= now
          && (p.memory.absent.Some? ==> p.memory.returned.value <= p.memory.absent.value <= now))
  }

  lemma AlertIsRemembered(p: Presence, t: int, was: int, l: Look)
    requires RemembersAlert(p, t, was) && was <= l.now && l.grace <= FLAP_GRACE && Counted(p, l)
    ensures Announced(p, l) == Offline ==> t + FLAP_GRACE <= l.now
    ensures RemembersAlert(Seen(p, l), if Announced(p, l) == Offline then l.now else t, l.now)
  {
  }

  lemma AlertIsFresh(p: Presence, l: Look)
    requires Announced(p, l) == Offline
    ensures RemembersAlert(Seen(p, l), l.now, l.now)
  {
  }

  predicate Spaced(at: seq<int>) { forall i, j :: 0 <= i < j < |at| ==> at[i] + FLAP_GRACE <= at[j] }

  lemma NoTimes()
    ensures Spaced([])
  {
  }

  lemma AnotherTime(at: seq<int>, t: int)
    requires Spaced(at)
    ensures at == [] || at[|at| - 1] + FLAP_GRACE <= t ==> Spaced(at + [t])
  {
  }

  lemma {:induction false} LastAlertIsRemembered(p: Presence, looks: seq<Look>)
    requires TimeForward(looks) && GraceCapped(looks) && ReturnsCounted(p, looks)
    requires OfflineAt(p, looks) != []
    ensures var at := OfflineAt(p, looks);
            RemembersAlert(After(p, looks), at[|at| - 1], looks[|looks| - 1].now) && Spaced(at)
  {
    var front, l := looks[..|looks| - 1], looks[|looks| - 1];
    var before, at := After(p, front), OfflineAt(p, front);
    hide Seen, Announced, RemembersAlert, Spaced, Counted;
    if at == [] {
      AlertIsFresh(before, l);
      NoTimes();
      AnotherTime(at, l.now);
    } else {
      LastAlertIsRemembered(p, front);
      AnotherTime(at, l.now);
      AlertIsRemembered(before, at[|at| - 1], front[|front| - 1].now, l);
    }
  }

  /**
   * Two offline alerts for one node within a process are at least the flapping
   * grace apart, whatever the node, its alerts, its channels and the settings do,
   * as long as every return from an announced outage counts.
   */
  lemma OfflineAlertsAreSpaced(p: Presence, looks: seq<Look>)
    requires TimeForward(looks) && GraceCapped(looks) && ReturnsCounted(p, looks)
    ensures Spaced(OfflineAt(p, looks))
  {
    if OfflineAt(p, looks) != [] {
      LastAlertIsRemembered(p, looks);
    }
  }

  // ---- exactly when alerts are spaced ----

  /** However the sweeps go on from here, the next alert, if there is one, is spaced from those before. */
  ghost predicate NextIsSpaced(p: Presence, looks: seq<Look>) {
    forall more: seq<Look> ::
      Legit(looks + more) && |OfflineAt(p, looks + more)| == |OfflineAt(p, looks)| + 1 ==> Spaced(OfflineAt(p, looks + more))
  }

  lemma {:induction false} AlertsOnlyAdd(p: Presence, looks: seq<Look>, more: seq<Look>)
    ensures OfflineAt(p, looks) <= OfflineAt(p, looks + more)
    decreases |more|
  {
    if more == [] {
      assert looks + more == looks;
    } else {
      AlertsOnlyAdd(p, looks, more[..|more| - 1]);
      LastLook(looks, more);
    }
  }

  lemma LastLook(looks: seq<Look>, more: seq<Look>)
    requires more != []
    ensures var all := looks + more;
            all[..|all| - 1] == looks + more[..|more| - 1] && all[|all| - 1] == more[|more| - 1]
  {
  }

  /** A node that is back stays off the record until the next alert, so no return until then is at stake. */
  lemma {:induction false} NoneAtStakeUntilTheNextAlert(p: Presence, looks: seq<Look>, more: seq<Look>)
    requires ReturnsCounted(p, looks) && After(p, looks).downSince == 0
    ensures OfflineAt(p, looks + more) == OfflineAt(p, looks) ==>
              ReturnsCounted(p, looks + more) && After(p, looks + more).downSince == 0
    decreases |more|
  {
    if more == [] {
      assert looks + more == looks;
    } else {
      var less := more[..|more| - 1];
      LastLook(looks, more);
      AlertsOnlyAdd(p, looks, less);
      NoneAtStakeUntilTheNextAlert(p, looks, less);
    }
  }

  lemma LegitBefore(looks: seq<Look>, i: nat)
    requires Legit(looks) && i <= |looks|
    ensures Legit(looks[..i])
  {
  }

  lemma {:induction false} CountedBefore(p: Presence, looks: seq<Look>, i: nat)
    requires ReturnsCounted(p, looks) && i <= |looks|
    ensures ReturnsCounted(p, looks[..i])
  {
    if i < |looks| {
      CountedBefore(p, looks[..|looks| - 1], i);
      assert looks[..|looks| - 1][..i] == looks[..i];
    } else {
      assert looks[..i] == looks;
    }
  }

  lemma {:induction false} NextIsSpacedOnceBack(p: Presence, looks: seq<Look>, more: seq<Look>)
    requires ReturnsCounted(p, looks) && After(p, looks).downSince == 0
    requires Legit(looks + more) && |OfflineAt(p, looks + more)| == |OfflineAt(p, looks)| + 1
    ensures Spaced(OfflineAt(p, looks + more))
    decreases |more|
  {
    assert more != [] by { assert looks + [] == looks; }
    var less := more[..|more| - 1];
    LastLook(looks, more);
    LegitBefore(looks + more, |looks + less|);
    AlertsOnlyAdd(p, looks, less);
    if |OfflineAt(p, looks + less)| == |OfflineAt(p, looks)| + 1 {
      NextIsSpacedOnceBack(p, looks, less);
    } else {
      NoneAtStakeUntilTheNextAlert(p, looks, less);
      OfflineAlertsAreSpaced(p, looks + more);
    }
  }

  /** A return that does not count, and two sweeps a minute apart that find the node gone again. */
  function GoneAgain(now: int): seq<Look> {
    [Look(false, 1, true, true, 60, now), Look(false, 1, true, true, 60, now + 60)]
  }

  lemma {:induction false} AlertCameAfterTheGrace(p: Presence, looks: seq<Look>)
    requires Legit(looks) && OfflineAt(p, looks) != []
    ensures var at, after := OfflineAt(p, looks), After(p, looks);
            && at[|at| - 1] <= looks[|looks| - 1].now
            && (after.downSince > 0 ==> after.memory.absent.Some? && at[|at| - 1] - after.memory.absent.value >= 60)
  {
    var front := looks[..|looks| - 1];
    LegitBefore(looks, |front|);
    if OfflineAt(p, front) != [] {
      AlertCameAfterTheGrace(p, front);
    }
  }

  /** Seen gone twice after a return that does not count, a node is announced within the flapping grace. */
  lemma UncountedReturnIsForgotten(p: Presence, t: int, was: int, l: Look)
    requires RemembersAlert(p, t, was) && was <= l.now && 60 <= l.grace <= FLAP_GRACE && !Counted(p, l)
    requires t - p.memory.absent.value >= 60
    ensures var back, gone := Seen(p, l), GoneAgain(l.now);
            && Announced(p, l) != Offline && back.downSince == 0
            && Announced(back, gone[0]) == Silent && Announced(Seen(back, gone[0]), gone[1]) == Offline
            && gone[1].now < t + FLAP_GRACE
  {
  }

  lemma UncountedReturnLosesTheSpacing(p: Presence, looks: seq<Look>)
    requires Legit(looks) && looks != []
    requires var front := looks[..|looks| - 1];
             && ReturnsCounted(p, front) && OfflineAt(p, front) != []
             && !Counted(After(p, front), looks[|looks| - 1])
    ensures After(p, looks).downSince == 0 && !NextIsSpaced(p, looks)
  {
    var front, l := looks[..|looks| - 1], looks[|looks| - 1];
    var before, at, gone := After(p, front), OfflineAt(p, front), GoneAgain(l.now);
    LegitBefore(looks, |front|);
    assert l.now >= front[|front| - 1].now && 60 <= l.grace <= FLAP_GRACE;
    LegitAfter(looks);
    LastAlertIsRemembered(p, front);
    hide Seen, Announced, RemembersAlert, Spaced, Legit, Counted;
    AlertCameAfterTheGrace(p, front);
    UncountedReturnIsForgotten(before, at[|at| - 1], front[|front| - 1].now, l);
    TwoMoreLooks(p, looks, gone[0], gone[1]);
    assert OfflineAt(p, looks) == at && OfflineAt(p, looks + gone) == at + [gone[1].now];
    NotSpaced(at, gone[1].now);
  }

  lemma LegitAfter(looks: seq<Look>)
    requires Legit(looks) && looks != []
    ensures Legit(looks + GoneAgain(looks[|looks| - 1].now))
  {
  }

  lemma NotSpaced(at: seq<int>, t: int)
    requires at != [] && t < at[|at| - 1] + FLAP_GRACE
    ensures !Spaced(at + [t])
  {
    assert (at + [t])[|at| - 1] == at[|at| - 1] && (at + [t])[|at|] == t;
  }

  lemma TwoMoreLooks(p: Presence, looks: seq<Look>, a: Look, b: Look)
    ensures var p0 := After(p, looks);
            OfflineAt(p, looks + [a, b]) ==
              OfflineAt(p, looks) + (if Announced(p0, a) == Offline then [a.now] else [])
                                  + (if Announced(Seen(p0, a), b) == Offline then [b.now] else [])
  {
    LastLook(looks, [a, b]);
    LastLook(looks, [a]);
    assert [a, b][..1] == [a] && [a][..0] == [] && looks + [] == looks;
  }

  /**
   * Exactly: the next alert of a node that is back is spaced from the one before,
   * however the sweeps go on, if and only if every return from an announced
   * outage counts.
   */
  lemma AlertsAreSpacedExactlyWhileReturnsCount(p: Presence, looks: seq<Look>)
    requires Legit(looks)
    ensures ReturnsCounted(p, looks) <==>
            forall i :: 0 <= i <= |looks| && After(p, looks[..i]).downSince == 0 ==> NextIsSpaced(p, looks[..i])
  {
    if ReturnsCounted(p, looks) {
      forall i | 0 <= i <= |looks| && After(p, looks[..i]).downSince == 0 ensures NextIsSpaced(p, looks[..i]) {
        CountedBefore(p, looks, i);
        forall more: seq<Look> | Legit(looks[..i] + more) && |OfflineAt(p, looks[..i] + more)| == |OfflineAt(p, looks[..i])| + 1
          ensures Spaced(OfflineAt(p, looks[..i] + more))
        {
          NextIsSpacedOnceBack(p, looks[..i], more);
        }
      }
    } else {
      var i := FirstUncounted(p, looks);
      LegitBefore(looks, i);
      UncountedReturnLosesTheSpacing(p, looks[..i]);
    }
  }

  /** How many looks it takes to the first return that does not count. */
  lemma {:induction false} FirstUncounted(p: Presence, looks: seq<Look>) returns (i: nat)
    requires !ReturnsCounted(p, looks)
    ensures 0 < i <= |looks|
    ensures var front := looks[..i][..i - 1];
            && ReturnsCounted(p, front) && OfflineAt(p, front) != [] && !Counted(After(p, front), looks[..i][i - 1])
  {
    var front := looks[..|looks| - 1];
    if ReturnsCounted(p, front) {
      i := |looks|;
      assert looks[..i] == looks;
    } else {
      i := FirstUncounted(p, front);
      assert looks[..i] == front[..i];
    }
  }

  /** The grace period is fixed or only ever lowered. */
  predicate GraceNeverRaised(looks: seq<Look>) {
    GraceCapped(looks) && forall i, j :: 0 <= i < j < |looks| ==> looks[j].grace <= looks[i].grace
  }

  /** Under a grace period that is never raised every return from an announced outage counts. */
  lemma {:induction false} UnraisedGraceCountsReturns(p: Presence, looks: seq<Look>)
    requires TimeForward(looks) && GraceNeverRaised(looks)
    ensures ReturnsCounted(p, looks)
    ensures OfflineAt(p, looks) != [] && After(p, looks).downSince > 0 ==>
              var absent := After(p, looks).memory.absent;
              absent.Some? && looks[|looks| - 1].now - absent.value >= looks[|looks| - 1].grace
  {
    if looks != [] {
      UnraisedGraceCountsReturns(p, looks[..|looks| - 1]);
    }
  }

  lemma {:induction false} SpacedTimesFit(at: seq<int>, from: int, width: nat)
    requires Spaced(at)
    requires forall i :: 0 <= i < |at| ==> from <= at[i] <= from + width
    ensures |at| <= 1 + width / FLAP_GRACE
    decreases |at|
  {
    if |at| >= 2 {
      assert at[|at| - 2] + FLAP_GRACE <= at[|at| - 1] <= from + width;
      SpacedTimesFit(at[..|at| - 1], from, at[|at| - 2] - from);
      assert (at[|at| - 2] - from) / FLAP_GRACE <= (width - FLAP_GRACE) / FLAP_GRACE;
    }
  }

  /** Any window of so many seconds holds at most one alert and one more per flapping grace. */
  lemma OfflineAlertsAreRare(p: Presence, looks: seq<Look>, i: nat, j: nat, width: nat)
    requires TimeForward(looks) && GraceCapped(looks) && ReturnsCounted(p, looks)
    requires i <= j < |OfflineAt(p, looks)|
    requires OfflineAt(p, looks)[j] - OfflineAt(p, looks)[i] <= width
    ensures j - i + 1 <= 1 + width / FLAP_GRACE
  {
    var at := OfflineAt(p, looks);
    OfflineAlertsAreSpaced(p, looks);
    SpacedTimesFit(at[i..j + 1], at[i], width);
  }

  /**
   * Raising the grace period during an outage loses the spacing: the return is
   * then too early to count as one, and the next absence is not seen as flapping.
   */
  lemma RaisedGraceLosesTheSpacing()
    ensures var gone := (grace: int, now: int) => Look(false, 1, true, true, grace, now);
            var looks := [gone(60, 0), gone(60, 60), Look(true, 1, true, true, 1_800, 90), gone(60, 120), gone(60, 180)];
            TimeForward(looks) && OfflineAt(Presence(Memory(None, None), 0), looks) == [60, 180]
  {
    var p := Presence(Memory(None, None), 0);
    var a, b, c := Look(false, 1, true, true, 60, 0), Look(false, 1, true, true, 60, 60), Look(true, 1, true, true, 1_800, 90);
    var d, e := Look(false, 1, true, true, 60, 120), Look(false, 1, true, true, 60, 180);
    assert [a, b, c, d, e][..4] == [a, b, c, d] && [a, b, c, d][..3] == [a, b, c];
    assert [a, b, c][..2] == [a, b] && [a, b][..1] == [a] && [a][..0] == [];
    assert After(p, []) == p && OfflineAt(p, []) == [];
    assert After(p, [a]) == Presence(Memory(Some(0), None), 0) && OfflineAt(p, [a]) == [];
    assert After(p, [a, b]) == Presence(Memory(Some(0), None), 1) && OfflineAt(p, [a, b]) == [60];
    assert After(p, [a, b, c]) == Presence(Memory(None, None), 0) && OfflineAt(p, [a, b, c]) == [60];
    assert After(p, [a, b, c, d]) == Presence(Memory(Some(120), None), 0) && OfflineAt(p, [a, b, c, d]) == [60];
  }

  // ---- the sweeps themselves ----

  /** One sweep as one node meets it: its row and the process's maps, before and after. */
  datatype Pass = Pass(n: Node, absent: map<int, int>, returned: map<int, int>, online: set<int>, s: Settings,
                       n': Node, absent': map<int, int>, returned': map<int, int>)

  function Found(p: Pass): Presence { PresenceOf(p.n, p.absent, p.returned) }

  function Left(p: Pass): Presence { PresenceOf(p.n', p.absent', p.returned') }

  function LookOf(p: Pass): Look { LookAt(p.n, p.online, p.s) }

  function LooksOf(ps: seq<Pass>): (looks: seq<Look>)
    ensures |looks| == |ps| && forall i :: 0 <= i < |ps| ==> looks[i] == LookOf(ps[i])
  {
    seq(|ps|, i requires 0 <= i < |ps| => LookOf(ps[i]))
  }

  /** Sweeps of one process over one node, whose row may change in between but for the outage on record. */
  ghost predicate Chained(ps: seq<Pass>) {
    && (forall i :: 0 <= i < |ps| ==>
          var p := ps[i]; Visited(p.n, p.n', p.absent, p.returned, p.absent', p.returned', p.online, p.s))
    && forall i :: 0 < i < |ps| ==> Found(ps[i]) == Left(ps[i - 1])
  }

  /** A sweep's lists name a node exactly when its own step announces that. */
  lemma ListedExactlyWhenAnnounced(nodes: seq<Node>, n: Node, p: Pass, what: Note)
    requires Distinct(nodes) && n in nodes && p.n == n
    ensures n.id in Telling(nodes, p.absent, p.returned, p.online, p.s, what) <==> Announced(Found(p), LookOf(p)) == what
  {
    TellingNames(nodes, p.absent, p.returned, p.online, p.s, what, n);
  }

  /** Each sweep finds the node as a run over the looks before it leaves it. */
  lemma {:induction false} SweepsFollowTheRun(ps: seq<Pass>, i: nat)
    requires Chained(ps) && i < |ps|
    ensures Found(ps[i]) == After(Found(ps[0]), LooksOf(ps)[..i])
    ensures Left(ps[i]) == After(Found(ps[0]), LooksOf(ps)[..i + 1])
  {
    var looks := LooksOf(ps);
    assert looks[..i + 1][..i] == looks[..i];
    if i > 0 {
      SweepsFollowTheRun(ps, i - 1);
      assert Found(ps[i]) == Left(ps[i - 1]);
    }
  }

  lemma {:induction false} AlertIsListed(p: Presence, looks: seq<Look>, i: nat)
    requires i < |looks| && Announced(After(p, looks[..i]), looks[i]) == Offline
    ensures looks[i].now in OfflineAt(p, looks)
  {
    var front := looks[..|looks| - 1];
    if i < |front| {
      assert front[..i] == looks[..i];
      AlertIsListed(p, front, i);
    }
  }

  lemma AlertsOfARunAreSpaced(p: Presence, looks: seq<Look>, i: nat, j: nat)
    requires i < j < |looks| && TimeForward(looks) && GraceCapped(looks) && ReturnsCounted(p, looks)
    requires Announced(After(p, looks[..i]), looks[i]) == Offline && Announced(After(p, looks[..j]), looks[j]) == Offline
    ensures looks[i].now + FLAP_GRACE <= looks[j].now
  {
    hide Spaced, OfflineAt, After, Announced, TimeForward, GraceCapped, ReturnsCounted;
    assert looks[..j][..i] == looks[..i];
    AlertIsListed(p, looks[..j], i);
    SpacedBefore(p, looks, j + 1);
    OneMoreLook(p, looks, j);
    SpacedFromLast(OfflineAt(p, looks[..j]), looks[i].now, looks[j].now);
  }

  lemma SpacedBefore(p: Presence, looks: seq<Look>, i: nat)
    requires i <= |looks| && TimeForward(looks) && GraceCapped(looks) && ReturnsCounted(p, looks)
    ensures Spaced(OfflineAt(p, looks[..i]))
  {
    hide Spaced;
    CountedBefore(p, looks, i);
    OfflineAlertsAreSpaced(p, looks[..i]);
  }

  lemma OneMoreLook(p: Presence, looks: seq<Look>, i: nat)
    requires i < |looks|
    ensures OfflineAt(p, looks[..i + 1])
         == OfflineAt(p, looks[..i]) + if Announced(After(p, looks[..i]), looks[i]) == Offline then [looks[i].now] else []
  {
    assert looks[..i + 1][..i] == looks[..i];
  }

  lemma SpacedFromLast(at: seq<int>, from: int, to: int)
    requires from in at && Spaced(at + [to])
    ensures from + FLAP_GRACE <= to
  {
    var k :| 0 <= k < |at| && at[k] == from;
    assert (at + [to])[k] == from && (at + [to])[|at|] == to;
  }

  /** What holds of runs holds of sweeps: two that announce a node offline are a flapping grace apart. */
  lemma SweepsKeepOfflineAlertsApart(ps: seq<Pass>, i: nat, j: nat)
    requires Chained(ps) && i < j < |ps|
    requires TimeForward(LooksOf(ps)) && GraceCapped(LooksOf(ps)) && ReturnsCounted(Found(ps[0]), LooksOf(ps))
    requires Announced(Found(ps[i]), LookOf(ps[i])) == Offline && Announced(Found(ps[j]), LookOf(ps[j])) == Offline
    ensures ps[i].s.now + FLAP_GRACE <= ps[j].s.now
  {
    hide After, Found, Announced, Chained, TimeForward, GraceCapped, ReturnsCounted;
    SweepsFollowTheRun(ps, i);
    SweepsFollowTheRun(ps, j);
    AlertsOfARunAreSpaced(Found(ps[0]), LooksOf(ps), i, j);
  }

  /** With a grace period that is never raised, no condition is left. */
  lemma UnraisedGraceKeepsAlertsSpaced(p: Presence, looks: seq<Look>)
    requires TimeForward(looks) && GraceNeverRaised(looks)
    ensures Spaced(OfflineAt(p, looks))
  {
    UnraisedGraceCountsReturns(p, looks);
    OfflineAlertsAreSpaced(p, looks);
  }

  // ---- what an offline alert implies, and when one is due ----

  lemma {:induction false} AbsenceIsUnbroken(p: Presence, looks: seq<Look>)
    requires p.memory.absent == None
    ensures var absent := After(p, looks).memory.absent;
            absent.Some? ==> exists k :: 0 <= k < |looks| && looks[k].now == absent.value
                               && forall j :: k <= j < |looks| ==> !looks[j].online
  {
    if looks != [] {
      var front, l := looks[..|looks| - 1], looks[|looks| - 1];
      AbsenceIsUnbroken(p, front);
      var was := After(p, front).memory.absent;
      if !l.online && was.Some? {
        var k :| 0 <= k < |front| && front[k].now == was.value && forall j :: k <= j < |front| ==> !front[j].online;
        assert looks[k].now == was.value;
      } else if !l.online {
        assert looks[|looks| - 1] == l;
      }
    }
  }

  /**
   * An offline alert means the node was gone at every sweep for at least the
   * grace period, all within this process.
   */
  lemma OfflineAlertMeansGoneThroughout(p: Presence, looks: seq<Look>, l: Look)
    requires p.memory.absent == None && 0 < l.grace <= FLAP_GRACE
    requires Announced(After(p, looks), l) == Offline
    ensures !l.online
    ensures exists k :: 0 <= k < |looks| && l.now - looks[k].now >= l.grace
                        && forall j :: k <= j < |looks| ==> !looks[j].online
  {
    AbsenceIsUnbroken(p, looks);
  }

  lemma {:induction false} AbsenceReachesBack(p: Presence, looks: seq<Look>, k: nat)
    requires k < |looks| && TimeForward(looks)
    requires p.memory.absent.Some? ==> p.memory.absent.value <= looks[0].now
    requires forall j :: k <= j < |looks| ==> !looks[j].online && looks[j].lastSeen > 0
    ensures var absent := After(p, looks).memory.absent; absent.Some? && absent.value <= looks[k].now
  {
    var front := looks[..|looks| - 1];
    if k < |front| {
      AbsenceReachesBack(p, front, k);
    } else if front != [] {
      AbsenceIsPast(p, front);
    }
  }

  lemma {:induction false} AbsenceIsPast(p: Presence, looks: seq<Look>)
    requires looks != [] && TimeForward(looks)
    requires p.memory.absent.Some? ==> p.memory.absent.value <= looks[0].now
    ensures var absent := After(p, looks).memory.absent; absent.Some? ==> absent.value <= looks[|looks| - 1].now
  {
    var front := looks[..|looks| - 1];
    if front != [] {
      AbsenceIsPast(p, front);
    }
  }

  /**
   * A node that has reported, has its alerts on and has a channel configured is
   * announced by the time every sweep has found it gone for the flapping grace.
   */
  lemma LongAbsenceIsAnnounced(p: Presence, looks: seq<Look>, k: nat)
    requires k < |looks| && TimeForward(looks)
    requires p.memory.absent.Some? ==> p.memory.absent.value <= looks[0].now
    requires forall j :: k <= j < |looks| ==> !looks[j].online && looks[j].lastSeen > 0
    requires var l := looks[|looks| - 1];
             l.armed && l.notify && l.grace <= FLAP_GRACE && l.now - looks[k].now >= FLAP_GRACE
    ensures After(p, looks).downSince > 0
  {
    var front := looks[..|looks| - 1];
    AbsenceReachesBack(p, front, k);
  }

  // ---- across restarts ----

  datatype Tick = Swept(look: Look) | Restarted

  /** A restart loses what the process remembered and keeps the stored outage. */
  function Next(p: Presence, t: Tick): Presence {
    match t case Swept(l) => Seen(p, l) case Restarted => p.(memory := Memory(None, None))
  }

  function Said(p: Presence, t: Tick): seq<Note> {
    match t
    case Swept(l) => if Announced(p, l) == Silent then [] else [Announced(p, l)]
    case Restarted => []
  }

  function Notes(p: Presence, ticks: seq<Tick>): seq<Note>
    decreases ticks
  {
    if ticks == [] then [] else Said(p, ticks[0]) + Notes(Next(p, ticks[0]), ticks[1..])
  }

  ghost predicate Alternates(notes: seq<Note>, first: Note) {
    forall i :: 0 <= i < |notes| ==>
      notes[i] == if i % 2 == 0 then first else if first == Offline then Online else Offline
  }

  /**
   * Offline and online strictly alternate across any number of restarts, starting
   * with online exactly when an outage is already on record.
   */
  lemma {:induction false} AlertsAlternateAcrossRestarts(p: Presence, ticks: seq<Tick>)
    ensures Alternates(Notes(p, ticks), if p.downSince > 0 then Online else Offline)
    decreases ticks
  {
    if ticks != [] {
      var now, rest := Said(p, ticks[0]), Notes(Next(p, ticks[0]), ticks[1..]);
      AlertsAlternateAcrossRestarts(Next(p, ticks[0]), ticks[1..]);
      if now == [] {
        assert now + rest == rest;
      } else {
        assert forall i :: 0 < i < |now + rest| ==> (now + rest)[i] == rest[i - 1];
      }
    }
  }

  // ---- traffic steps ----

  /** One sweep as one node meets it: its row, the figures, and what the process has recorded, before and after. */
  datatype Reading = Reading(n: Node, traffic: map<int, (NaiveDate, int)>, primed: bool, figures: map<int, Traffic.Figures>,
                             s: Settings, traffic': map<int, (NaiveDate, int)>)

  function OnRecord(r: Reading): Told { Lookup(r.traffic, r.n.id) }

  predicate Metered(r: Reading) { Examined(r.n, r.figures, r.s) }

  function Period(r: Reading): NaiveDate
    requires Metered(r)
  {
    r.figures[r.n.id].monthStart
  }

  function Step(r: Reading): int
    requires Metered(r)
  {
    StepOf(r.n, r.figures[r.n.id], r.s)
  }

  predicate FiresAt(r: Reading) { Metered(r) && Fires(OnRecord(r), r.primed, Period(r), Step(r)) }

  /** The sweep's list names a node exactly when its own step fires. */
  lemma ListedExactlyWhenFiring(nodes: seq<Node>, n: Node, r: Reading)
    requires Distinct(nodes) && n in nodes && r.n == n
    ensures n.id in Metering(nodes, r.traffic, r.primed, r.figures, r.s) <==> FiresAt(r)
  {
    MeteringNames(nodes, r.traffic, r.primed, r.figures, r.s, n);
  }

  /**
   * Sweeps of one process over one node. Each leaves what `Watch.Sweep` promises
   * it records, a sweep that does not examine the node leaves what was recorded,
   * and all but the first are primed.
   */
  ghost predicate Sequel(rs: seq<Reading>) {
    && (forall i :: 0 <= i < |rs| ==>
          Recorded(rs[i].n, rs[i].figures, rs[i].s, OnRecord(rs[i]), Lookup(rs[i].traffic', rs[i].n.id)))
    && forall i :: 0 < i < |rs| ==> rs[i].primed && OnRecord(rs[i]) == Lookup(rs[i - 1].traffic', rs[i - 1].n.id)
  }

  /** The last sweep before `j` that examined the node, from `i` on. */
  predicate LastMetered(rs: seq<Reading>, i: nat, j: nat, k: int) {
    && i <= k < j <= |rs| && Metered(rs[k])
    && forall x :: k < x < j ==> !Metered(rs[x])
  }

  /** What a sweep finds recorded is what the last one that examined the node left. */
  lemma {:induction false} ToldByTheLast(rs: seq<Reading>, i: nat, j: nat) returns (k: nat)
    requires Sequel(rs) && i < j < |rs| && Metered(rs[i])
    ensures LastMetered(rs, i, j, k) && OnRecord(rs[j]) == Some((Period(rs[k]), Step(rs[k])))
  {
    if Metered(rs[j - 1]) {
      k := j - 1;
    } else {
      k := ToldByTheLast(rs, i, j - 1);
    }
    assert OnRecord(rs[j]) == Lookup(rs[j - 1].traffic', rs[j - 1].n.id);
  }

  /**
   * After a sweep that examined the node, a later one fires exactly when it
   * reaches a step and the last to examine it in between recorded another period
   * or a lower step.
   */
  lemma FiresExactlyOnNews(rs: seq<Reading>, i: nat, j: nat)
    requires Sequel(rs) && i < j < |rs| && Metered(rs[i]) && Metered(rs[j])
    ensures FiresAt(rs[j]) <==>
            Step(rs[j]) > 0 && exists k :: LastMetered(rs, i, j, k)
                                          && (Period(rs[k]) != Period(rs[j]) || Step(rs[k]) < Step(rs[j]))
  {
    hide Sequel, Examined, StepOf;
    StepsAreNotNegative(rs[j]);
    var k := ToldByTheLast(rs, i, j);
    assert rs[j].primed by { PrimedAfterTheFirst(rs, j); }
    forall x | LastMetered(rs, i, j, x) ensures x == k { }
  }

  lemma PrimedAfterTheFirst(rs: seq<Reading>, j: nat)
    requires Sequel(rs) && 0 < j < |rs|
    ensures rs[j].primed
  {
  }

  /** The settings keep the percentage within bounds. */
  lemma StepsAreNotNegative(r: Reading)
    requires Metered(r)
    ensures Step(r) == 0 || Step(r) == r.s.percent || Step(r) == 100
    ensures Step(r) >= 0
  {
  }

  /** Between sweeps that examine the node the period does not step back. */
  ghost predicate PeriodsForward(rs: seq<Reading>) {
    forall i, j :: 0 <= i < j < |rs| && Metered(rs[i]) && Metered(rs[j]) ==> Leq(Period(rs[i]), Period(rs[j]))
  }

  /**
   * The same step is announced again within a period only if a sweep in between
   * recorded a lower one -- or, should the period step back, another period.
   */
  lemma RepeatNeedsALowerStepBetween(rs: seq<Reading>, i: nat, j: nat)
    requires Sequel(rs) && i < j < |rs| && Metered(rs[i])
    requires FiresAt(rs[j]) && Period(rs[i]) == Period(rs[j]) && Step(rs[i]) == Step(rs[j])
    ensures exists k :: i < k < j && Metered(rs[k]) && (Period(rs[k]) == Period(rs[j]) ==> Step(rs[k]) < Step(rs[j]))
    ensures PeriodsForward(rs) ==>
            exists k :: i < k < j && Metered(rs[k]) && Period(rs[k]) == Period(rs[j]) && Step(rs[k]) < Step(rs[j])
  {
    FiresExactlyOnNews(rs, i, j);
    var k :| LastMetered(rs, i, j, k) && (Period(rs[k]) != Period(rs[j]) || Step(rs[k]) < Step(rs[j]));
    if PeriodsForward(rs) { BetweenIsTheSame(rs, i, j, k); }
    assert i < k < j && Metered(rs[k]);
  }

  lemma BetweenIsTheSame(rs: seq<Reading>, i: nat, j: nat, k: nat)
    requires PeriodsForward(rs) && i <= k < j < |rs| && Metered(rs[i]) && Metered(rs[j]) && Metered(rs[k])
    requires Period(rs[i]) == Period(rs[j])
    ensures Period(rs[k]) == Period(rs[j])
  {
    assert Leq(Period(rs[i]), Period(rs[k])) || i == k;
    assert Leq(Period(rs[k]), Period(rs[j]));
  }

  /** Within a period the same limit and threshold meet usage that only grows. */
  ghost predicate UsageGrows(rs: seq<Reading>) {
    forall i, j :: 0 <= i < j < |rs| && Metered(rs[i]) && Metered(rs[j]) && Period(rs[i]) == Period(rs[j]) ==>
      && Usage(rs[i]) <= Usage(rs[j])
      && rs[i].n.limit == rs[j].n.limit && rs[i].s.percent == rs[j].s.percent
  }

  function Usage(r: Reading): int
    requires Metered(r)
  {
    Used(r.n.mode, r.figures[r.n.id].month)
  }

  lemma StepsGrowWithUsage(a: Reading, b: Reading)
    requires Metered(a) && Metered(b) && a.s.percent <= 100
    requires Usage(a) <= Usage(b) && a.n.limit == b.n.limit && a.s.percent == b.s.percent
    ensures Step(a) <= Step(b)
  {
  }

  /**
   * While usage only grows, two alerts of one period announce different steps:
   * the threshold first, then the full allowance.
   */
  lemma PeriodAlertsRise(rs: seq<Reading>, i: nat, j: nat)
    requires Sequel(rs) && PeriodsForward(rs) && UsageGrows(rs) && i < j < |rs|
    requires forall k :: 0 <= k < |rs| ==> rs[k].s.percent <= 100
    requires FiresAt(rs[i]) && FiresAt(rs[j]) && Period(rs[i]) == Period(rs[j])
    ensures Step(rs[i]) == rs[i].s.percent < 100 == Step(rs[j])
  {
    FiresExactlyOnNews(rs, i, j);
    var k :| LastMetered(rs, i, j, k) && (Period(rs[k]) != Period(rs[j]) || Step(rs[k]) < Step(rs[j]));
    hide Sequel, Fires, Examined, StepOf, Used;
    BetweenIsTheSame(rs, i, j, k);
    if i < k { StepsGrowWithUsage(rs[i], rs[k]); }
    assert rs[i].s.percent == rs[j].s.percent;
    StepsAreNotNegative(rs[i]);
    StepsAreNotNegative(rs[j]);
    assert Step(rs[i]) != 0 by { FiringIsNotZero(rs[i]); }
  }

  lemma FiringIsNotZero(r: Reading)
    requires FiresAt(r)
    ensures Step(r) != 0
  {
  }

  lemma AtMostTwoAlertsAPeriod(rs: seq<Reading>, i: nat, j: nat, k: nat)
    requires Sequel(rs) && PeriodsForward(rs) && UsageGrows(rs) && i < j < k < |rs|
    requires forall x :: 0 <= x < |rs| ==> rs[x].s.percent <= 100
    requires FiresAt(rs[i]) && FiresAt(rs[j]) && Period(rs[i]) == Period(rs[j])
    ensures !(FiresAt(rs[k]) && Period(rs[j]) == Period(rs[k]))
  {
    PeriodAlertsRise(rs, i, j);
    if FiresAt(rs[k]) && Period(rs[j]) == Period(rs[k]) {
      PeriodAlertsRise(rs, j, k);
    }
  }
}

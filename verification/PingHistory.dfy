/**
 * A latency chart in one pass: rows arrive in time order, one bucket is open at
 * a time, and closing it yields a point per probe. The proofs compare that fold
 * with a plain group-by over the whole window.
 */
module PingHistory {
  import opened Basics

  /** One row of the query; a negative latency is a timeout. */
  datatype Record = Record(task: int, ts: int, latency: i64)

  /** What the chart draws for one probe in one bucket. */
  datatype Point = Point(task: int, ts: int, latency: Option<int>, band: Option<(int, int)>, loss: Option<int>)

  /** A probe in the bucket being filled: what answered, and how many did not. */
  datatype Probe = Probe(task: int, answered: seq<int>, lost: nat)

  predicate InTimeOrder(rs: seq<Record>) { forall i, j :: 0 <= i < j < |rs| ==> rs[i].ts <= rs[j].ts }

  // ---- group-by: the reference ----

  function Bucket(r: Record, step: int): int
    requires 0 < step
  {
    TruncDiv(r.ts, step)
  }

  /** Every latency of one probe in one bucket. */
  function Group(rs: seq<Record>, step: int, b: int, task: int): seq<int>
    requires 0 < step
  {
    if rs == [] then []
    else
      var r := rs[|rs| - 1];
      Group(rs[..|rs| - 1], step, b, task) + if r.task == task && Bucket(r, step) == b then [r.latency] else []
  }

  /** Every latency of one probe in the window. */
  function Window(rs: seq<Record>, task: int): seq<int> {
    if rs == [] then []
    else
      var r := rs[|rs| - 1];
      Window(rs[..|rs| - 1], task) + if r.task == task then [r.latency] else []
  }

  function Answers(g: seq<int>): seq<int> {
    if g == [] then []
    else Answers(g[..|g| - 1]) + if g[|g| - 1] < 0 then [] else [g[|g| - 1]]
  }

  function Losses(g: seq<int>): nat {
    if g == [] then 0 else Losses(g[..|g| - 1]) + if g[|g| - 1] < 0 then 1 else 0
  }

  lemma {:induction false} AnswersAndLossesSplit(g: seq<int>)
    ensures |g| == |Answers(g)| + Losses(g)
    ensures forall x <- Answers(g) :: 0 <= x
  {
    if g != [] { AnswersAndLossesSplit(g[..|g| - 1]); }
  }

  lemma AppendOne(g: seq<int>, x: int)
    ensures Answers(g + [x]) == Answers(g) + (if x < 0 then [] else [x])
    ensures Losses(g + [x]) == Losses(g) + (if x < 0 then 1 else 0)
  {
  }

  lemma GroupOne(rs: seq<Record>, r: Record, step: int, b: int, task: int)
    requires 0 < step
    ensures Group(rs + [r], step, b, task)
         == Group(rs, step, b, task) + if r.task == task && Bucket(r, step) == b then [r.latency] else []
    ensures Window(rs + [r], task) == Window(rs, task) + if r.task == task then [r.latency] else []
  {
  }

  // ---- sorting ----

  predicate Ordered(s: seq<int>) { |s| <= 1 || (s[0] <= s[1] && Ordered(s[1..])) }

  lemma {:induction false} OrderedByIndex(s: seq<int>, i: nat, j: nat)
    requires Ordered(s) && i <= j < |s|
    ensures s[i] <= s[j]
  {
    if 0 < i {
      OrderedByIndex(s[1..], i - 1, j - 1);
    } else if 0 < j {
      OrderedByIndex(s[1..], 0, j - 1);
    }
  }

  function Insert(x: int, s: seq<int>): (r: seq<int>)
    requires Ordered(s)
    ensures Ordered(r) && |r| == |s| + 1
    ensures r[0] == if s == [] then x else Min(x, s[0])
    ensures multiset(r) == multiset(s) + multiset{x}
  {
    if s == [] || x <= s[0] then
      FrontOf(x, s);
      [x] + s
    else
      var rest := Insert(x, s[1..]);
      BehindTheFirst(x, s, rest);
      [s[0]] + rest
  }

  lemma BehindTheFirst(x: int, s: seq<int>, rest: seq<int>)
    requires Ordered(s) && s != [] && s[0] < x
    requires Ordered(rest) && |rest| == |s| && rest[0] == (if |s| == 1 then x else Min(x, s[1]))
    requires multiset(rest) == multiset(s[1..]) + multiset{x}
    ensures var r := [s[0]] + rest; Ordered(r) && multiset(r) == multiset(s) + multiset{x}
  {
    FrontOf(s[0], rest);
    DropFirst(s);
  }

  lemma FrontOf(x: int, s: seq<int>)
    ensures ([x] + s)[1..] == s && multiset([x] + s) == multiset{x} + multiset(s)
    ensures Ordered(s) && (s == [] || x <= s[0]) ==> Ordered([x] + s)
  {
    assert ([x] + s)[1..] == s;
  }

  function Sorted(s: seq<int>): (r: seq<int>)
    ensures Ordered(r) && multiset(r) == multiset(s) && |r| == |s|
  {
    if s == [] then []
    else
      assert s == s[..|s| - 1] + [s[|s| - 1]];
      Insert(s[|s| - 1], Sorted(s[..|s| - 1]))
  }

  lemma SortedHolds(s: seq<int>)
    ensures forall x :: x in Sorted(s) <==> x in s
  {
    assert forall x :: x in Sorted(s) <==> x in multiset(Sorted(s));
    assert forall x :: x in s <==> x in multiset(s);
  }

  lemma FirstIsLeast(s: seq<int>, x: int)
    requires Ordered(s) && x in multiset(s)
    ensures s != [] && s[0] <= x
  {
  }

  lemma SameFirst(a: seq<int>, b: seq<int>)
    requires Ordered(a) && Ordered(b) && multiset(a) == multiset(b) && a != [] && b != []
    ensures a[0] == b[0]
  {
    assert a[0] in multiset(a) && b[0] in multiset(b);
    FirstIsLeast(a, b[0]);
    FirstIsLeast(b, a[0]);
  }

  lemma SameLength<T>(a: seq<T>, b: seq<T>)
    requires multiset(a) == multiset(b)
    ensures |a| == |b|
  {
    assert |multiset(a)| == |a| && |multiset(b)| == |b|;
  }

  lemma {:induction false} OrderedIsUnique(a: seq<int>, b: seq<int>)
    requires Ordered(a) && Ordered(b) && multiset(a) == multiset(b)
    ensures a == b
  {
    SameLength(a, b);
    if a != [] {
      SameFirst(a, b);
      DropFirst(a);
      DropFirst(b);
      OrderedIsUnique(a[1..], b[1..]);
    }
  }

  lemma DropFirst<T>(s: seq<T>)
    requires s != []
    ensures s == [s[0]] + s[1..] && multiset(s[1..]) == multiset(s) - multiset{s[0]}
  {
  }

  lemma DropAt<T>(s: seq<T>, j: nat)
    requires j < |s|
    ensures s == s[..j] + ([s[j]] + s[j + 1..])
    ensures multiset(s[..j] + s[j + 1..]) == multiset(s) - multiset{s[j]}
  {
    assert s == s[..j] + ([s[j]] + s[j + 1..]);
  }

  predicate ByTask(ps: seq<Probe>) { |ps| <= 1 || (ps[0].task < ps[1].task && ByTask(ps[1..])) }

  predicate Distinct(ps: seq<Probe>) { forall i, j :: 0 <= i < j < |ps| ==> ps[i].task != ps[j].task }

  function InsertProbe(p: Probe, ps: seq<Probe>): (r: seq<Probe>)
    requires ByTask(ps) && forall q <- ps :: q.task != p.task
    ensures ByTask(r) && |r| == |ps| + 1
    ensures r[0].task == if ps == [] then p.task else Min(p.task, ps[0].task)
    ensures forall q :: q in r <==> q == p || q in ps
  {
    if ps == [] || p.task < ps[0].task then
      assert ([p] + ps)[1..] == ps;
      [p] + ps
    else
      var rest := InsertProbe(p, ps[1..]);
      assert ([ps[0]] + rest)[1..] == rest && ps == [ps[0]] + ps[1..];
      [ps[0]] + rest
  }

  function SortedByTask(ps: seq<Probe>): (r: seq<Probe>)
    requires Distinct(ps)
    ensures ByTask(r) && |r| == |ps|
    ensures forall q :: q in r <==> q in ps
  {
    if ps == [] then [] else InsertProbe(ps[|ps| - 1], SortedByTask(ps[..|ps| - 1]))
  }

  // ---- one point ----

  /** What adding two `i64`s leaves in a release build, which wraps. */
  function Wrap(x: int): int {
    var m := x % 0x1_0000_0000_0000_0000;
    if m > I64_MAX then m - 0x1_0000_0000_0000_0000 else m
  }

  function Middle(s: seq<int>): Option<int> {
    var n := |s|;
    if n == 0 then None
    else if n % 2 == 1 then Some(s[n / 2])
    else Some(TruncDiv(Wrap(s[n / 2 - 1] + s[n / 2]), 2))
  }

  function Describe(task: int, ts: int, answered: seq<int>, lost: nat): Point {
    var s := Sorted(answered);
    Point(task, ts, Middle(s),
          if s != [] && s[0] < s[|s| - 1] then Some((s[0], s[|s| - 1])) else None,
          if lost > 0 then Some(Percent(lost, |answered| + lost)) else None)
  }

  /** The share lost, rounded up so that only no loss at all reads as none. */
  function Percent(lost: nat, total: nat): (p: int)
    requires 0 < lost <= total
    ensures 100 * lost <= p * total < 100 * lost + total
  {
    RoundedUp(100 * lost, total);
    (100 * lost + total - 1) / total
  }

  function Below(s: seq<int>, x: int): nat { if s == [] then 0 else Below(s[1..], x) + if s[0] < x then 1 else 0 }

  function UpTo(s: seq<int>, x: int): nat { if s == [] then 0 else UpTo(s[1..], x) + if s[0] <= x then 1 else 0 }

  /** `x` is what a full sort of `s` would put at index `k`. */
  ghost predicate IsRank(s: seq<int>, k: int, x: int) { Below(s, x) <= k < UpTo(s, x) }

  lemma {:induction false} OrderedRanks(s: seq<int>, k: nat)
    requires Ordered(s) && k < |s|
    ensures IsRank(s, k, s[k])
  {
    if k == 0 {
      forall i | 0 <= i < |s| ensures s[0] <= s[i] { OrderedByIndex(s, 0, i); }
      NoneBelow(s, s[0]);
    } else {
      OrderedByIndex(s, 0, k);
      OrderedRanks(s[1..], k - 1);
    }
  }

  lemma {:induction false} NoneBelow(s: seq<int>, x: int)
    requires forall i :: 0 <= i < |s| ==> x <= s[i]
    ensures Below(s, x) == 0
  {
    if s != [] { NoneBelow(s[1..], x); }
  }

  lemma {:induction false} CountsIgnoreOrder(a: seq<int>, b: seq<int>, x: int)
    requires multiset(a) == multiset(b)
    ensures Below(a, x) == Below(b, x) && UpTo(a, x) == UpTo(b, x)
  {
    SameLength(a, b);
    if a != [] {
      assert a[0] in multiset(b);
      var j :| 0 <= j < |b| && b[j] == a[0];
      var rest := b[..j] + b[j + 1..];
      DropFirst(a);
      DropAt(b, j);
      CountsIgnoreOrder(a[1..], rest, x);
      hide Below, UpTo;
      CountsTakenOut(b, j, x);
      CountsTakenOut(a, 0, x);
      assert a[..0] + a[1..] == a[1..];
    }
  }

  lemma CountsTakenOut(s: seq<int>, j: nat, x: int)
    requires j < |s|
    ensures var rest := s[..j] + s[j + 1..];
            && Below(s, x) == Below(rest, x) + (if s[j] < x then 1 else 0)
            && UpTo(s, x) == UpTo(rest, x) + (if s[j] <= x then 1 else 0)
  {
    var after := [s[j]] + s[j + 1..];
    assert s == s[..j] + after && after[1..] == s[j + 1..];
    CountsAppend(s[..j], after, x);
    CountsAppend(s[..j], s[j + 1..], x);
  }

  lemma {:induction false} CountsAppend(a: seq<int>, b: seq<int>, x: int)
    ensures Below(a + b, x) == Below(a, x) + Below(b, x) && UpTo(a + b, x) == UpTo(a, x) + UpTo(b, x)
  {
    if a == [] {
      assert a + b == b;
    } else {
      assert (a + b)[1..] == a[1..] + b;
      CountsAppend(a[1..], b, x);
    }
  }

  ghost predicate InTheMiddle(s: seq<int>, lo: int, hi: int) {
    IsRank(s, (|s| - 1) / 2, lo) && IsRank(s, |s| / 2, hi)
  }

  /** The mean, rounded down, of the values at the middle rank or ranks. */
  ghost predicate IsMedian(s: seq<int>, m: int) {
    exists lo, hi :: InTheMiddle(s, lo, hi) && m == (lo + hi) / 2
  }

  /** At most one value has a given rank. */
  lemma RankIsUnique(s: seq<int>, k: int, x: int, y: int)
    requires IsRank(s, k, x) && IsRank(s, k, y)
    ensures x == y
  {
    if x < y { UpToBeforeBelow(s, x, y); }
    if y < x { UpToBeforeBelow(s, y, x); }
  }

  lemma {:induction false} UpToBeforeBelow(s: seq<int>, x: int, y: int)
    requires x < y
    ensures UpTo(s, x) <= Below(s, y)
  {
    if s != [] { UpToBeforeBelow(s[1..], x, y); }
  }

  lemma SortedRanks(s: seq<int>, k: nat)
    requires k < |s|
    ensures IsRank(s, k, Sorted(s)[k])
  {
    OrderedRanks(Sorted(s), k);
    CountsIgnoreOrder(Sorted(s), s, Sorted(s)[k]);
  }

  lemma MedianIs(s: seq<int>, m: int)
    requires s != []
    ensures IsMedian(s, m) <==> m == (Sorted(s)[(|s| - 1) / 2] + Sorted(s)[|s| / 2]) / 2
  {
    var i, j := (|s| - 1) / 2, |s| / 2;
    hide Sorted, Ordered, IsRank;
    SortedRanks(s, i);
    SortedRanks(s, j);
    assert InTheMiddle(s, Sorted(s)[i], Sorted(s)[j]);
    if IsMedian(s, m) {
      var lo, hi :| InTheMiddle(s, lo, hi) && m == (lo + hi) / 2;
      RankIsUnique(s, i, lo, Sorted(s)[i]);
      RankIsUnique(s, j, hi, Sorted(s)[j]);
    }
  }

  lemma WrapSparesSmallSums(lo: int, hi: int)
    requires 0 <= lo <= I64_MAX && 0 <= hi <= I64_MAX
    ensures TruncDiv(Wrap(lo + hi), 2) == (lo + hi) / 2 <==> lo + hi <= I64_MAX
  {
  }

  lemma MiddleIsExactUnlessItWraps(s: seq<int>, lo: int, hi: int)
    requires s != [] && lo == s[(|s| - 1) / 2] && hi == s[|s| / 2]
    requires 0 <= lo <= I64_MAX && 0 <= hi <= I64_MAX
    ensures Middle(s).Some? && (Middle(s).value == (lo + hi) / 2 <==> |s| % 2 == 1 || lo + hi <= I64_MAX)
  {
    if |s| % 2 == 1 {
      assert (|s| - 1) / 2 == |s| / 2;
    } else {
      assert (|s| - 1) / 2 == |s| / 2 - 1;
      WrapSparesSmallSums(lo, hi);
    }
  }

  /**
   * The latency a point shows is the true median of its answers exactly when the
   * middle two can be added without wrapping.
   */
  lemma LatencyIsTheMedianUnlessItWraps(answered: seq<int>)
    requires forall x <- answered :: 0 <= x <= I64_MAX
    ensures Middle(Sorted(answered)).None? <==> answered == []
    ensures answered != [] ==>
      var s, n := Sorted(answered), |answered|;
      IsMedian(answered, Middle(s).value) <==> n % 2 == 1 || s[(n - 1) / 2] + s[n / 2] <= I64_MAX
  {
    hide Middle, Sorted, Ordered, IsMedian;
    var s := Sorted(answered);
    if answered == [] {
      assert s == [];
      MiddleOfNone();
    } else {
      var lo, hi := s[(|s| - 1) / 2], s[|s| / 2];
      SortedHolds(answered);
      assert lo in s && hi in s;
      MiddleIsExactUnlessItWraps(s, lo, hi);
      MedianIs(answered, Middle(s).value);
    }
  }

  lemma MiddleOfNone()
    ensures Middle([]) == None
  {
  }

  /** Two answers an agent may report whose median comes out negative. */
  lemma MedianCanWrap()
    ensures Describe(1, 0, [I64_MAX, I64_MAX], 0).latency == Some(-1)
  {
    var a := [I64_MAX, I64_MAX];
    SortedHolds(a);
    assert Sorted(a)[0] in Sorted(a) && Sorted(a)[1] in Sorted(a);
  }

  /**
   * A band, the extremes, exactly when they differ; a loss, rounded up to a whole
   * percent, exactly when something was lost.
   */
  lemma BandAndLossTellWhatTheBucketHeld(task: int, ts: int, answered: seq<int>, lost: nat)
    ensures var p := Describe(task, ts, answered, lost);
            && (p.band.Some? <==> exists x, y :: x in answered && y in answered && x != y)
            && (p.band.Some? ==>
                  && p.band.value.0 in answered && p.band.value.1 in answered
                  && forall x <- answered :: p.band.value.0 <= x <= p.band.value.1)
            && (p.loss.Some? <==> lost > 0)
            && (p.loss.Some? ==> var total := |answered| + lost;
                  100 * lost <= p.loss.value * total < 100 * lost + total)
  {
    if answered != [] {
      Extremes(answered);
    }
  }

  lemma Extremes(g: seq<int>)
    requires g != []
    ensures var s := Sorted(g);
            s[0] in g && s[|s| - 1] in g && forall x <- g :: s[0] <= x <= s[|s| - 1]
  {
    var s := Sorted(g);
    SortedHolds(g);
    hide Sorted, Ordered;
    assert s[0] in s && s[|s| - 1] in s;
    forall x | x in g ensures s[0] <= x <= s[|s| - 1] {
      assert x in s;
      var i :| 0 <= i < |s| && s[i] == x;
      OrderedByIndex(s, 0, i);
      OrderedByIndex(s, i, |s| - 1);
    }
  }

  lemma RoundedUp(a: int, n: int)
    requires 0 < n
    ensures var q := (a + n - 1) / n; a <= q * n < a + n
  {
    var q := (a + n - 1) / n;
    assert a + n - 1 == n * q + (a + n - 1) % n && n * q == q * n;
  }

  // ---- the chart ----

  /** The point a window's records make of one bucket of one probe. */
  function At(rs: seq<Record>, step: int, b: int, task: int): Point
    requires 0 < step
  {
    var g := Group(rs, step, b, task);
    Describe(task, b * step, Answers(g), Losses(g))
  }

  predicate Earlier(p: Point, q: Point) { p.ts < q.ts || (p.ts == q.ts && p.task < q.task) }

  predicate InOrder(out: seq<Point>) { forall i, j :: 0 <= i < j < |out| ==> Earlier(out[i], out[j]) }

  /** One point for each bucket and probe that has a record, in order, and no others. */
  ghost predicate IsChart(rs: seq<Record>, step: int, out: seq<Point>)
    requires 0 < step
  {
    && InOrder(out)
    && (forall p <- out :: exists r <- rs :: p == At(rs, step, Bucket(r, step), r.task))
    && (forall r <- rs :: At(rs, step, Bucket(r, step), r.task) in out)
  }

  /** What was lost of what was sent; the percentage is left to the caller to round. */
  datatype Share = Share(lost: nat, samples: nat)

  function PointsOf(ps: seq<Probe>, ts: int): (out: seq<Point>) {
    seq(|ps|, i requires 0 <= i < |ps| => Describe(ps[i].task, ts, ps[i].answered, ps[i].lost))
  }

  method Summarise(probe: Probe, ts: int) returns (row: Point)
    ensures row == Describe(probe.task, ts, probe.answered, probe.lost)
  {
    hide Sorted, Ordered, Middle, Percent;
    var answered := Sorted(probe.answered);
    row := Point(probe.task, ts, Middle(answered), None, None);
    if answered != [] && answered[0] < answered[|answered| - 1] {
      row := row.(band := Some((answered[0], answered[|answered| - 1])));
    }
    if probe.lost > 0 {
      row := row.(loss := Some(Percent(probe.lost, |answered| + probe.lost)));
    }
  }

  method CloseBucket(out: seq<Point>, open: seq<Probe>, ts: int) returns (out': seq<Point>, open': seq<Probe>)
    requires Distinct(open)
    ensures open' == [] && out' == out + PointsOf(SortedByTask(open), ts)
  {
    out', open' := out, SortedByTask(open);
    ghost var all := open';
    hide PointsOf, Describe, ByTask, SortedByTask;
    while open' != []
      invariant out' + PointsOf(open', ts) == out + PointsOf(all, ts)
      decreases |open'|
    {
      FirstPoint(open', ts);
      var row := Summarise(open'[0], ts);
      PointMoves(out', row, PointsOf(open'[1..], ts));
      out', open' := out' + [row], open'[1..];
    }
    NoPoints(ts);
  }

  lemma FirstPoint(ps: seq<Probe>, ts: int)
    requires ps != []
    ensures PointsOf(ps, ts) == [Describe(ps[0].task, ts, ps[0].answered, ps[0].lost)] + PointsOf(ps[1..], ts)
  {
    hide Describe;
  }

  lemma NoPoints(ts: int)
    ensures PointsOf([], ts) == []
  {
  }

  lemma PointMoves(out: seq<Point>, row: Point, rest: seq<Point>)
    ensures (out + [row]) + rest == out + ([row] + rest)
  {
  }

  /** The open bucket stands for the records that fell into it. */
  ghost predicate Summarises(open: seq<Probe>, current: seq<Record>) {
    && Distinct(open)
    && (forall p <- open :: p == Tally(current, p.task) && exists r <- current :: r.task == p.task)
    && (forall r <- current :: Tally(current, r.task) in open)
  }

  function Tally(current: seq<Record>, task: int): Probe {
    Probe(task, Answers(Window(current, task)), Losses(Window(current, task)))
  }

  predicate AllIn(current: seq<Record>, step: int, b: int)
    requires 0 < step
  {
    forall r <- current :: Bucket(r, step) == b
  }

  predicate AllBefore(closed: seq<Record>, step: int, b: int)
    requires 0 < step
  {
    forall r <- closed :: Bucket(r, step) < b
  }

  lemma {:induction false} GroupOfCurrent(closed: seq<Record>, current: seq<Record>, step: int, b: int, task: int)
    requires 0 < step && AllBefore(closed, step, b) && AllIn(current, step, b)
    ensures Group(closed + current, step, b, task) == Window(current, task)
    decreases |closed| + |current|
  {
    if current != [] {
      var n := |current| - 1;
      assert closed + current == (closed + current[..n]) + [current[n]];
      GroupOne(closed + current[..n], current[n], step, b, task);
      GroupOfCurrent(closed, current[..n], step, b, task);
    } else if closed != [] {
      var n := |closed| - 1;
      assert closed + current == closed && closed == closed[..n] + [closed[n]];
      GroupOne(closed[..n], closed[n], step, b, task);
      assert closed[..n] + [] == closed[..n];
      GroupOfCurrent(closed[..n], [], step, b, task);
    }
  }

  lemma {:induction false} GroupOfClosed(closed: seq<Record>, current: seq<Record>, step: int, b: int, old_b: int, task: int)
    requires 0 < step && AllIn(current, step, b) && old_b != b
    ensures Group(closed + current, step, old_b, task) == Group(closed, step, old_b, task)
    decreases |current|
  {
    if current == [] {
      assert closed + current == closed;
    } else {
      var n := |current| - 1;
      assert closed + current == (closed + current[..n]) + [current[n]];
      GroupOne(closed + current[..n], current[n], step, old_b, task);
      GroupOfClosed(closed, current[..n], step, b, old_b, task);
    }
  }

  lemma AtFromCurrent(closed: seq<Record>, current: seq<Record>, step: int, b: int, task: int)
    requires 0 < step && AllBefore(closed, step, b) && AllIn(current, step, b)
    ensures var p := Tally(current, task);
            At(closed + current, step, b, task) == Describe(task, b * step, p.answered, p.lost)
  {
    GroupOfCurrent(closed, current, step, b, task);
  }

  lemma AtFromClosed(closed: seq<Record>, current: seq<Record>, step: int, b: int, r: Record)
    requires 0 < step && AllBefore(closed, step, b) && AllIn(current, step, b) && r in closed
    ensures At(closed + current, step, Bucket(r, step), r.task) == At(closed, step, Bucket(r, step), r.task)
  {
    GroupOfClosed(closed, current, step, b, Bucket(r, step), r.task);
  }

  lemma BucketsKeepOrder(b: int, c: int, step: int)
    requires 0 < step && b < c
    ensures b * step < c * step
  {
    MulMonotone(step, b + 1, c);
    assert step * (b + 1) == b * step + step && step * c == c * step;
  }

  lemma {:induction false} ByTaskOrdersPoints(ps: seq<Probe>, i: nat, j: nat)
    requires ByTask(ps) && i < j < |ps|
    ensures ps[i].task < ps[j].task
  {
    if 0 < i {
      ByTaskOrdersPoints(ps[1..], i - 1, j - 1);
    } else if 1 < j {
      ByTaskOrdersPoints(ps[1..], 0, j - 1);
    }
  }

  lemma OrderAppends(a: seq<Point>, c: seq<Point>, ts: int)
    requires InOrder(a) && InOrder(c)
    requires forall i :: 0 <= i < |a| ==> a[i].ts < ts
    requires forall i :: 0 <= i < |c| ==> c[i].ts == ts
    ensures InOrder(a + c)
  {
  }

  lemma ClosingKeepsOrder(closed: seq<Record>, step: int, b: int, out: seq<Point>, ps: seq<Probe>)
    requires 0 < step && AllBefore(closed, step, b) && IsChart(closed, step, out) && ByTask(ps)
    ensures InOrder(out + PointsOf(ps, b * step))
  {
    var more := PointsOf(ps, b * step);
    forall i, j | 0 <= i < j < |more| ensures Earlier(more[i], more[j]) {
      ByTaskOrdersPoints(ps, i, j);
    }
    forall i | 0 <= i < |out| ensures out[i].ts < b * step {
      assert out[i] in out;
      var r :| r in closed && out[i] == At(closed, step, Bucket(r, step), r.task);
      BucketsKeepOrder(Bucket(r, step), b, step);
    }
    OrderAppends(out, more, b * step);
  }

  lemma PointsAreOfRecords(closed: seq<Record>, current: seq<Record>, step: int, b: int, out: seq<Point>,
                           open: seq<Probe>, p: Point)
    requires 0 < step && AllBefore(closed, step, b) && AllIn(current, step, b)
    requires IsChart(closed, step, out) && Summarises(open, current)
    requires p in out || p in PointsOf(SortedByTask(open), b * step)
    ensures exists r <- closed + current :: p == At(closed + current, step, Bucket(r, step), r.task)
  {
    hide AllBefore, AllIn, Tally, At, Describe;
    if p in out {
      var r :| r in closed && p == At(closed, step, Bucket(r, step), r.task);
      AtFromClosed(closed, current, step, b, r);
      assert r in closed + current;
    } else {
      var ps := SortedByTask(open);
      var i :| 0 <= i < |ps| && PointsOf(ps, b * step)[i] == p;
      assert ps[i] in open;
      var r :| r in current && r.task == ps[i].task;
      AtFromCurrent(closed, current, step, b, r.task);
      BucketOfCurrent(current, step, b, r);
      TallyNames(current, r.task);
      assert r in closed + current;
    }
  }

  lemma BucketOfCurrent(current: seq<Record>, step: int, b: int, r: Record)
    requires 0 < step && AllIn(current, step, b) && r in current
    ensures Bucket(r, step) == b
  {
  }

  lemma RecordsHavePoints(closed: seq<Record>, current: seq<Record>, step: int, b: int, out: seq<Point>,
                          open: seq<Probe>, r: Record)
    requires 0 < step && AllBefore(closed, step, b) && AllIn(current, step, b)
    requires IsChart(closed, step, out) && Summarises(open, current) && r in closed + current
    ensures At(closed + current, step, Bucket(r, step), r.task) in out + PointsOf(SortedByTask(open), b * step)
  {
    hide AllBefore, AllIn, Tally, At, Describe;
    if r in closed {
      AtFromClosed(closed, current, step, b, r);
    } else {
      var ps, task := SortedByTask(open), r.task;
      AtFromCurrent(closed, current, step, b, task);
      BucketOfCurrent(current, step, b, r);
      assert Tally(current, task) in ps;
      var i :| 0 <= i < |ps| && ps[i] == Tally(current, task);
      TallyNames(current, task);
      assert PointsOf(ps, b * step)[i] in PointsOf(ps, b * step);
    }
  }

  /** Closing a bucket extends a chart of everything before it to one that includes it. */
  lemma ClosingExtendsTheChart(closed: seq<Record>, current: seq<Record>, step: int, b: int, out: seq<Point>, open: seq<Probe>)
    requires 0 < step && AllBefore(closed, step, b) && AllIn(current, step, b)
    requires IsChart(closed, step, out) && Summarises(open, current)
    ensures IsChart(closed + current, step, out + PointsOf(SortedByTask(open), b * step))
  {
    var more, rs := PointsOf(SortedByTask(open), b * step), closed + current;
    ClosingKeepsOrder(closed, step, b, out, SortedByTask(open));
    hide AllBefore, AllIn, Summarises, PointsOf, SortedByTask, InOrder, At;
    forall p | p in out + more ensures exists r <- rs :: p == At(rs, step, Bucket(r, step), r.task) {
      PointsAreOfRecords(closed, current, step, b, out, open, p);
    }
    forall r | r in rs ensures At(rs, step, Bucket(r, step), r.task) in out + more {
      RecordsHavePoints(closed, current, step, b, out, open, r);
    }
  }

  function Position(open: seq<Probe>, task: int): (at: nat)
    ensures at <= |open|
    ensures at < |open| ==> open[at].task == task
    ensures at == |open| ==> forall p <- open :: p.task != task
  {
    if open == [] || open[0].task == task then 0 else 1 + Position(open[1..], task)
  }

  lemma TallyOne(current: seq<Record>, r: Record, task: int)
    ensures var p := Tally(current, task);
            Tally(current + [r], task) ==
              if r.task != task then p
              else if r.latency < 0 then p.(lost := p.lost + 1)
              else p.(answered := p.answered + [r.latency])
  {
    GroupOne(current, r, 1, 0, task);
    var w := Window(current, task);
    AppendOne(w, r.latency);
    assert w + [] == w && Answers(w) + [] == Answers(w);
  }

  lemma {:induction false} NothingTallied(current: seq<Record>, task: int)
    requires forall r <- current :: r.task != task
    ensures Window(current, task) == []
  {
    if current != [] { NothingTallied(current[..|current| - 1], task); }
  }

  /** A probe's tally replaced by, or started with, one that counts a further record. */
  lemma TakingOneMore(open: seq<Probe>, open': seq<Probe>, at: nat, current: seq<Record>, r: Record)
    requires Summarises(open, current)
    requires at <= |open| && (forall i :: 0 <= i < |open| ==> (open[i].task == r.task <==> i == at))
    requires |open'| == Max(|open|, at + 1) && open'[at] == Tally(current + [r], r.task)
    requires forall i :: 0 <= i < |open| && i != at ==> open'[i] == open[i]
    ensures Summarises(open', current + [r])
  {
    hide Tally;
    var next := current + [r];
    assert open'[at].task == r.task && open'[at] in open' && r in next by { TallyNames(next, r.task); }
    forall p | p in open' ensures p == Tally(next, p.task) && exists q <- next :: q.task == p.task {
      var i :| 0 <= i < |open'| && open'[i] == p;
      if i != at {
        assert p == open[i] && p in open;
        TallyOne(current, r, p.task);
        var q :| q in current && q.task == p.task;
        assert q in next;
      }
    }
    forall q | q in next ensures Tally(next, q.task) in open' {
      if q.task != r.task {
        TallyOne(current, r, q.task);
        TallyNames(current, q.task);
        assert q in current;
        var i :| 0 <= i < |open| && open[i] == Tally(current, q.task);
        assert open'[i] == open[i];
      }
    }
  }

  lemma TallyNames(current: seq<Record>, task: int)
    ensures Tally(current, task).task == task
  {
  }

  method Take(open: seq<Probe>, r: Record, ghost current: seq<Record>) returns (open': seq<Probe>)
    requires Summarises(open, current)
    ensures Summarises(open', current + [r])
  {
    hide Window, Answers, Losses;
    var at := Position(open, r.task);
    open' := open;
    if at == |open| {
      open' := open' + [Probe(r.task, [], 0)];
      NothingTallied(current, r.task);
      AnswersAndLossesSplit([]);
    }
    assert open'[at] == Tally(current, r.task);
    TallyOne(current, r, r.task);
    hide Tally, Summarises;
    if r.latency < 0 {
      open' := open'[at := open'[at].(lost := open'[at].lost + 1)];
    } else {
      open' := open'[at := open'[at].(answered := open'[at].answered + [r.latency])];
    }
    TakingOneMore(open, open', at, current, r);
  }

  /** The losses of each probe over the whole window, for those that lost anything. */
  ghost predicate IsLoss(rs: seq<Record>, loss: map<int, Share>) {
    forall task ::
      && (task in loss <==> Losses(Window(rs, task)) > 0)
      && (task in loss ==> loss[task] == Share(Losses(Window(rs, task)), |Window(rs, task)|))
  }

  ghost predicate Counts(totals: map<int, Share>, seen: seq<Record>) {
    forall task ::
      && (task in totals <==> Window(seen, task) != [])
      && (task in totals ==> totals[task] == Share(Losses(Window(seen, task)), |Window(seen, task)|))
  }

  lemma CountsNothing()
    ensures Counts(map[], [])
  {
  }

  lemma CountOne(totals: map<int, Share>, seen: seq<Record>, r: Record)
    requires Counts(totals, seen)
    ensures var was := if r.task in totals then totals[r.task] else Share(0, 0);
            Counts(totals[r.task := Share(was.lost + (if r.latency < 0 then 1 else 0), was.samples + 1)], seen + [r])
  {
    hide Window, Losses, Answers, Group;
    var w := Window(seen, r.task);
    forall task ensures Window(seen + [r], task) == if r.task == task then w + [r.latency] else Window(seen, task) {
      GroupOne(seen, r, 1, 0, task);
      assert Window(seen, task) + [] == Window(seen, task);
    }
    AppendOne(w, r.latency);
    AnswersAndLossesSplit([]);
  }

  /** The fold after `i` rows: a chart of the closed buckets, which end at `c`, and the open one. */
  ghost predicate Folded(rs: seq<Record>, step: int, c: int, i: int, bucket: int, out: seq<Point>, open: seq<Probe>)
    requires 0 < step
  {
    && 0 <= c <= i <= |rs| && (i > 0 ==> c < i)
    && AllBefore(rs[..c], step, bucket) && AllIn(rs[c..i], step, bucket)
    && IsChart(rs[..c], step, out) && Summarises(open, rs[c..i])
  }

  lemma FoldCloses(rs: seq<Record>, step: int, c: int, i: int, bucket: int, out: seq<Point>, open: seq<Probe>)
    requires 0 < step && Folded(rs, step, c, i, bucket, out, open)
    ensures Distinct(open) && IsChart(rs[..i], step, out + PointsOf(SortedByTask(open), bucket * step))
  {
    hide IsChart, AllBefore, AllIn, Summarises, PointsOf, SortedByTask;
    assert Distinct(open) by { AnOpenBucketIsDistinct(open, rs[c..i]); }
    ClosingExtendsTheChart(rs[..c], rs[c..i], step, bucket, out, open);
    hide Distinct;
    assert rs[..c] + rs[c..i] == rs[..i];
  }

  lemma AnOpenBucketIsDistinct(open: seq<Probe>, current: seq<Record>)
    requires Summarises(open, current)
    ensures Distinct(open)
  {
  }

  lemma FoldTakes(rs: seq<Record>, step: int, c: int, i: int, bucket: int, out: seq<Point>, open: seq<Probe>)
    requires 0 < step && 0 <= c <= i < |rs| && Bucket(rs[i], step) == bucket
    requires AllBefore(rs[..c], step, bucket) && AllIn(rs[c..i], step, bucket)
    requires IsChart(rs[..c], step, out) && Summarises(open, rs[c..i] + [rs[i]])
    ensures Folded(rs, step, c, i + 1, bucket, out, open)
  {
    hide IsChart, Summarises;
    assert rs[c..i] + [rs[i]] == rs[c..i + 1];
  }

  lemma FoldOpens(rs: seq<Record>, step: int, i: nat, b: int)
    requires 0 < step && i <= |rs|
    ensures AllIn(rs[i..i], step, b) && Summarises([], rs[i..i])
    ensures Folded(rs, step, 0, 0, b, [], [])
  {
  }

  lemma LossesComeFromTotals(totals: map<int, Share>, rs: seq<Record>)
    requires Counts(totals, rs)
    ensures IsLoss(rs, map task | task in totals && totals[task].lost > 0 :: totals[task])
  {
    hide Window;
  }

  /** One pass over the rows of one node's window, which the query returns in time order. */
  method PingRecords(rs: seq<Record>, step: int) returns (out: seq<Point>, loss: map<int, Share>)
    requires 0 < step && InTimeOrder(rs)
    ensures IsChart(rs, step, out)
    ensures IsLoss(rs, loss)
  {
    var open: seq<Probe> := [];
    var totals: map<int, Share> := map[];
    var bucket := 0;
    out := [];
    ghost var c := 0;
    hide IsChart, Summarises, AllBefore, AllIn, Counts, Tally, Distinct, PointsOf, SortedByTask;
    FoldOpens(rs, step, 0, 0);
    CountsNothing();
    assert rs[..0] == [];
    for i := 0 to |rs|
      invariant Folded(rs, step, c, i, bucket, out, open)
      invariant Counts(totals, rs[..i])
    {
      var r := rs[i];
      var b := Bucket(r, step);
      if b != bucket {
        NextBucketIsLater(rs, step, c, i, bucket);
        FoldCloses(rs, step, c, i, bucket, out, open);
        out, open := CloseBucket(out, open, bucket * step);
        bucket, c := b, i;
        FoldOpens(rs, step, i, b);
      }
      CountOne(totals, rs[..i], r);
      assert rs[..i] + [r] == rs[..i + 1];
      var seen := if r.task in totals then totals[r.task] else Share(0, 0);
      totals := totals[r.task := Share(seen.lost + (if r.latency < 0 then 1 else 0), seen.samples + 1)];
      open := Take(open, r, rs[c..i]);
      FoldTakes(rs, step, c, i, bucket, out, open);
    }
    FoldCloses(rs, step, c, |rs|, bucket, out, open);
    assert rs[..|rs|] == rs;
    out, open := CloseBucket(out, open, bucket * step);
    loss := map task | task in totals && totals[task].lost > 0 :: totals[task];
    LossesComeFromTotals(totals, rs);
  }

  lemma NextBucketIsLater(rs: seq<Record>, step: int, c: int, i: int, b: int)
    requires 0 < step && InTimeOrder(rs) && 0 <= c <= i < |rs| && (i > 0 ==> c < i)
    requires AllBefore(rs[..c], step, b) && AllIn(rs[c..i], step, b) && Bucket(rs[i], step) != b
    ensures AllBefore(rs[..i], step, Bucket(rs[i], step))
  {
    forall r | r in rs[..i] ensures Bucket(r, step) < Bucket(rs[i], step) {
      var k :| 0 <= k < i && rs[k] == r;
      TruncDivMonotone(rs[i - 1].ts, rs[i].ts, step);
      assert rs[c..i][i - 1 - c] == rs[i - 1] && rs[i - 1] in rs[c..i];
      if k < c { assert r in rs[..c]; } else { assert rs[c..i][k - c] == r; }
    }
  }

  // ---- one chart per window, whatever the order ----

  predicate Within(a: seq<Point>, b: seq<Point>) { forall p <- a :: p in b }

  lemma {:induction false} OrderedPointsAreUnique(a: seq<Point>, b: seq<Point>)
    requires InOrder(a) && InOrder(b) && Within(a, b) && Within(b, a)
    ensures a == b
  {
    if a == [] {
      NothingWithin(b);
    } else {
      SameLast(a, b);
      var m, n := |a| - 1, |b| - 1;
      assert a == a[..m] + [a[m]] && b == b[..n] + [b[n]];
      DropLast(a, b);
      DropLast(b, a);
      FrontInOrder(a);
      FrontInOrder(b);
      hide InOrder, Within;
      OrderedPointsAreUnique(a[..m], b[..n]);
    }
  }

  lemma FrontInOrder(a: seq<Point>)
    requires InOrder(a) && a != []
    ensures InOrder(a[..|a| - 1])
  {
  }

  lemma SameLast(a: seq<Point>, b: seq<Point>)
    requires InOrder(a) && InOrder(b) && Within(a, b) && Within(b, a) && a != []
    ensures b != [] && a[|a| - 1] == b[|b| - 1]
  {
    assert a[0] in a;
    var x, y := a[|a| - 1], b[|b| - 1];
    assert x in a && y in b;
    LastIsLatest(a, y);
    LastIsLatest(b, x);
  }

  lemma NothingWithin(b: seq<Point>)
    requires Within(b, [])
    ensures b == []
  {
    if b != [] { FirstIsIn(b); }
  }

  lemma FirstIsIn(b: seq<Point>)
    requires b != []
    ensures b[0] in b
  {
  }

  lemma LastIsLatest(a: seq<Point>, p: Point)
    requires InOrder(a) && p in a
    ensures p == a[|a| - 1] || Earlier(p, a[|a| - 1])
  {
  }

  lemma DropLast(a: seq<Point>, b: seq<Point>)
    requires InOrder(a) && a != [] && b != [] && Within(a, b) && a[|a| - 1] == b[|b| - 1]
    ensures Within(a[..|a| - 1], b[..|b| - 1])
  {
    assert b == b[..|b| - 1] + [b[|b| - 1]];
    var front := a[..|a| - 1];
    forall p | p in front ensures p in b[..|b| - 1] {
      var i :| 0 <= i < |a| - 1 && a[i] == p;
      assert Earlier(a[i], a[|a| - 1]);
      assert p in a;
    }
  }

  lemma {:induction false} GroupAppends(xs: seq<Record>, ys: seq<Record>, step: int, b: int, task: int)
    requires 0 < step
    ensures Group(xs + ys, step, b, task) == Group(xs, step, b, task) + Group(ys, step, b, task)
    decreases |ys|
  {
    if ys == [] {
      assert xs + ys == xs;
    } else {
      var n := |ys| - 1;
      assert xs + ys == (xs + ys[..n]) + [ys[n]] && ys == ys[..n] + [ys[n]];
      GroupOne(xs + ys[..n], ys[n], step, b, task);
      GroupAppends(xs, ys[..n], step, b, task);
    }
  }

  lemma {:induction false} AnswersAppend(g: seq<int>, h: seq<int>)
    ensures Answers(g + h) == Answers(g) + Answers(h) && Losses(g + h) == Losses(g) + Losses(h)
    decreases |h|
  {
    if h == [] {
      assert g + h == g;
    } else {
      var n := |h| - 1;
      assert g + h == (g + h[..n]) + [h[n]] && h == h[..n] + [h[n]];
      AppendOne(g + h[..n], h[n]);
      AppendOne(h[..n], h[n]);
      AnswersAppend(g, h[..n]);
    }
  }

  /** What a bucket holds, up to the order in which it was filled. */
  ghost function Held(rs: seq<Record>, step: int, b: int, task: int): (multiset<int>, nat)
    requires 0 < step
  {
    var g := Group(rs, step, b, task);
    (multiset(Answers(g)), Losses(g))
  }

  lemma HeldAppends(xs: seq<Record>, ys: seq<Record>, step: int, b: int, task: int)
    requires 0 < step
    ensures var x, y := Held(xs, step, b, task), Held(ys, step, b, task);
            Held(xs + ys, step, b, task) == (x.0 + y.0, x.1 + y.1)
  {
    GroupAppends(xs, ys, step, b, task);
    AnswersAppend(Group(xs, step, b, task), Group(ys, step, b, task));
  }

  lemma HeldTakenOut(ys: seq<Record>, j: nat, step: int, b: int, task: int)
    requires 0 < step && j < |ys|
    ensures var one, rest := Held([ys[j]], step, b, task), Held(ys[..j] + ys[j + 1..], step, b, task);
            Held(ys, step, b, task) == (one.0 + rest.0, one.1 + rest.1)
    ensures multiset(ys[..j] + ys[j + 1..]) == multiset(ys) - multiset{ys[j]}
  {
    hide Held;
    DropAt(ys, j);
    HeldAppends(ys[..j], [ys[j]] + ys[j + 1..], step, b, task);
    HeldAppends([ys[j]], ys[j + 1..], step, b, task);
    HeldAppends(ys[..j], ys[j + 1..], step, b, task);
    var one, l, r := Held([ys[j]], step, b, task), Held(ys[..j], step, b, task), Held(ys[j + 1..], step, b, task);
    assert l.0 + (one.0 + r.0) == one.0 + (l.0 + r.0);
  }

  lemma {:induction false} HeldIgnoresOrder(xs: seq<Record>, ys: seq<Record>, step: int, b: int, task: int)
    requires 0 < step && multiset(xs) == multiset(ys)
    ensures Held(xs, step, b, task) == Held(ys, step, b, task)
    decreases |xs|
  {
    hide Held;
    SameLength(xs, ys);
    if xs != [] {
      assert xs[0] in multiset(ys);
      var j :| 0 <= j < |ys| && ys[j] == xs[0];
      var rest := ys[..j] + ys[j + 1..];
      HeldTakenOut(ys, j, step, b, task);
      DropFirst(xs);
      HeldAppends([xs[0]], xs[1..], step, b, task);
      HeldIgnoresOrder(xs[1..], rest, step, b, task);
    } else {
      assert ys == [];
    }
  }

  lemma DescribeIgnoresOrder(task: int, ts: int, a: seq<int>, b: seq<int>, lost: nat)
    requires multiset(a) == multiset(b)
    ensures Describe(task, ts, a, lost) == Describe(task, ts, b, lost)
  {
    hide Middle, Percent, Sorted, Ordered;
    OrderedIsUnique(Sorted(a), Sorted(b));
    SameLength(a, b);
  }

  lemma AtIgnoresOrder(xs: seq<Record>, ys: seq<Record>, step: int, b: int, task: int)
    requires 0 < step && multiset(xs) == multiset(ys)
    ensures At(xs, step, b, task) == At(ys, step, b, task)
  {
    HeldIgnoresOrder(xs, ys, step, b, task);
    DescribeIgnoresOrder(task, b * step, Answers(Group(xs, step, b, task)), Answers(Group(ys, step, b, task)),
                         Losses(Group(ys, step, b, task)));
  }

  /**
   * The rows of a window have one chart, whichever of them came first within a
   * bucket.
   */
  lemma ChartIgnoresOrder(xs: seq<Record>, ys: seq<Record>, step: int, a: seq<Point>, b: seq<Point>)
    requires 0 < step && multiset(xs) == multiset(ys)
    requires IsChart(xs, step, a) && IsChart(ys, step, b)
    ensures a == b
  {
    ChartHolds(xs, ys, step, a, b);
    ChartHolds(ys, xs, step, b, a);
    OrderedPointsAreUnique(a, b);
  }

  lemma ChartHolds(xs: seq<Record>, ys: seq<Record>, step: int, a: seq<Point>, b: seq<Point>)
    requires 0 < step && multiset(xs) == multiset(ys)
    requires IsChart(xs, step, a) && IsChart(ys, step, b)
    ensures Within(a, b)
  {
    forall p | p in a ensures p in b {
      var r :| r in xs && p == At(xs, step, Bucket(r, step), r.task);
      assert r in multiset(xs) && r in multiset(ys);
      assert r in ys;
      AtIgnoresOrder(xs, ys, step, Bucket(r, step), r.task);
    }
  }

  // ---- window loss ----

  /** The buckets in which a chart has a point for one probe. */
  function BucketsOf(out: seq<Point>, step: int, task: int): seq<int>
    requires 0 < step
  {
    if out == [] then []
    else
      var p := out[|out| - 1];
      BucketsOf(out[..|out| - 1], step, task) + if p.task == task then [TruncDiv(p.ts, step)] else []
  }

  /** What those buckets lost and held, added up. */
  function SumOver(rs: seq<Record>, step: int, bs: seq<int>, task: int): Share
    requires 0 < step
  {
    if bs == [] then Share(0, 0)
    else
      var g, rest := Group(rs, step, bs[0], task), SumOver(rs, step, bs[1..], task);
      Share(Losses(g) + rest.lost, |g| + rest.samples)
  }

  predicate Ascending(bs: seq<int>) { forall i, j :: 0 <= i < j < |bs| ==> bs[i] < bs[j] }

  /** What one more record adds to a bucket of a probe. */
  lemma GroupCounts(rs: seq<Record>, r: Record, step: int, b: int, task: int)
    requires 0 < step
    ensures var g, g', hit := Group(rs, step, b, task), Group(rs + [r], step, b, task), r.task == task && Bucket(r, step) == b;
            && |g'| == |g| + (if hit then 1 else 0)
            && Losses(g') == Losses(g) + (if hit && r.latency < 0 then 1 else 0)
  {
    hide Group, Bucket, Losses, Answers;
    GroupOne(rs, r, step, b, task);
    var g := Group(rs, step, b, task);
    AppendOne(g, r.latency);
    assert g + [] == g;
  }

  lemma {:induction false} SumOne(rs: seq<Record>, r: Record, step: int, bs: seq<int>, task: int)
    requires 0 < step && Ascending(bs)
    ensures var was, hit := SumOver(rs, step, bs, task), r.task == task && Bucket(r, step) in bs;
            SumOver(rs + [r], step, bs, task) ==
              if hit then Share(was.lost + (if r.latency < 0 then 1 else 0), was.samples + 1) else was
    decreases bs
  {
    if bs != [] {
      hide Group, Bucket, Losses;
      SumOne(rs, r, step, bs[1..], task);
      GroupCounts(rs, r, step, bs[0], task);
      FirstIsAlone(bs);
    }
  }

  lemma FirstIsAlone(bs: seq<int>)
    requires bs != [] && Ascending(bs)
    ensures bs[0] !in bs[1..] && forall b :: b in bs <==> b == bs[0] || b in bs[1..]
  {
    assert bs == [bs[0]] + bs[1..];
  }

  lemma {:induction false} SumOfNothing(step: int, bs: seq<int>, task: int)
    requires 0 < step
    ensures SumOver([], step, bs, task) == Share(0, 0)
    decreases bs
  {
    if bs != [] { SumOfNothing(step, bs[1..], task); }
  }

  lemma {:induction false} SumCoversTheWindow(rs: seq<Record>, step: int, bs: seq<int>, task: int)
    requires 0 < step && Ascending(bs)
    requires forall r <- rs :: r.task == task ==> Bucket(r, step) in bs
    ensures SumOver(rs, step, bs, task) == Share(Losses(Window(rs, task)), |Window(rs, task)|)
    decreases rs
  {
    if rs == [] {
      SumOfNothing(step, bs, task);
    } else {
      var n := |rs| - 1;
      assert rs == rs[..n] + [rs[n]];
      SumCoversTheWindow(rs[..n], step, bs, task);
      SumOne(rs[..n], rs[n], step, bs, task);
      var w := Window(rs[..n], task);
      AppendOne(w, rs[n].latency);
      assert w + [] == w;
    }
  }

  lemma BucketOfPoint(b: int, step: int)
    requires 0 < step
    ensures TruncDiv(b * step, step) == b
  {
    if b >= 0 {
      DivExact(b, step);
    } else {
      DivExact(-b, step);
      assert (-b) * step == -(b * step);
    }
  }

  lemma DivExact(b: int, step: int)
    requires 0 < step && 0 <= b
    ensures b * step >= 0 && (b * step) / step == b
  {
    var q := (b * step) / step;
    assert b * step == step * q + (b * step) % step;
    MulMonotone(step, 0, b);
    assert step * b == b * step && step * (q + 1) == step * q + step && step * (b + 1) == step * b + step;
    MulCancel(step, b, q + 1);
    MulCancel(step, q, b + 1);
  }

  lemma AscendingAppends(bs: seq<int>, b: int)
    requires Ascending(bs) && forall c <- bs :: c < b
    ensures Ascending(bs + [b])
  {
    assert forall i :: 0 <= i < |bs| ==> bs[i] in bs;
  }

  ghost predicate OnGrid(ts: int, step: int) { exists b :: ts == b * step }

  /** Of two points of a probe the later sits in the later bucket. */
  lemma GridKeepsOrder(s: int, t: int, step: int)
    requires 0 < step && s < t && OnGrid(s, step) && OnGrid(t, step)
    ensures TruncDiv(s, step) < TruncDiv(t, step)
  {
    hide TruncDiv;
    var i :| s == i * step;
    var j :| t == j * step;
    BucketOfPoint(i, step);
    BucketOfPoint(j, step);
    SmallerMultiple(i, j, step);
  }

  lemma SmallerMultiple(i: int, j: int, step: int)
    requires 0 < step && i * step < j * step
    ensures i < j
  {
    assert step * j == j * step && step * i == i * step;
    MulCancel(step, i, j);
  }

  /** `b` is the bucket of a point of that probe. */
  ghost predicate HasPoint(out: seq<Point>, step: int, task: int, b: int)
    requires 0 < step
  {
    exists p <- out :: p.task == task && b == TruncDiv(p.ts, step)
  }

  lemma {:induction false} BucketsAreOfPoints(out: seq<Point>, step: int, task: int)
    requires 0 < step
    ensures forall b :: b in BucketsOf(out, step, task) <==> HasPoint(out, step, task, b)
    decreases out
  {
    hide TruncDiv;
    if out != [] {
      var n := |out| - 1;
      BucketsAreOfPoints(out[..n], step, task);
      assert out == out[..n] + [out[n]];
    }
  }

  /** A probe's points sit in ascending buckets, one for each bucket it has records in. */
  lemma {:induction false} BucketsAscend(out: seq<Point>, step: int, task: int)
    requires 0 < step && InOrder(out) && forall p <- out :: OnGrid(p.ts, step)
    ensures Ascending(BucketsOf(out, step, task))
    decreases out
  {
    if out != [] {
      var n := |out| - 1;
      var front, p := out[..n], out[n];
      var bs := BucketsOf(front, step, task);
      hide TruncDiv, OnGrid, Ascending;
      BucketsAscend(front, step, task);
      if p.task == task {
        BucketsAreOfPoints(front, step, task);
        forall b | b in bs ensures b < TruncDiv(p.ts, step) {
          assert HasPoint(front, step, task, b);
          var q :| q in front && q.task == task && b == TruncDiv(q.ts, step);
          BeforeTheLast(out, q);
          GridKeepsOrder(q.ts, p.ts, step);
        }
        AscendingAppends(bs, TruncDiv(p.ts, step));
      }
    }
  }

  lemma BeforeTheLast(out: seq<Point>, q: Point)
    requires out != [] && InOrder(out) && q in out[..|out| - 1] && q.task == out[|out| - 1].task
    ensures q.ts < out[|out| - 1].ts
  {
    var i :| 0 <= i < |out| - 1 && out[i] == q;
    assert Earlier(out[i], out[|out| - 1]);
  }

  /**
   * A probe's window loss is the sum of what its points' buckets lost over the
   * sum of what they held.
   */
  lemma WindowLossIsTheSumOfItsBuckets(rs: seq<Record>, step: int, out: seq<Point>, task: int)
    requires 0 < step && IsChart(rs, step, out)
    ensures SumOver(rs, step, BucketsOf(out, step, task), task)
         == Share(Losses(Window(rs, task)), |Window(rs, task)|)
  {
    ChartSitsOnTheGrid(rs, step, out);
    BucketsAscend(out, step, task);
    forall r | r in rs && r.task == task ensures Bucket(r, step) in BucketsOf(out, step, task) {
      RecordsBucketIsDrawn(rs, step, out, r);
    }
    hide IsChart;
    SumCoversTheWindow(rs, step, BucketsOf(out, step, task), task);
  }

  lemma RecordsBucketIsDrawn(rs: seq<Record>, step: int, out: seq<Point>, r: Record)
    requires 0 < step && IsChart(rs, step, out) && r in rs
    ensures Bucket(r, step) in BucketsOf(out, step, r.task)
  {
    hide Describe, TruncDiv, InOrder;
    var p := At(rs, step, Bucket(r, step), r.task);
    PointSits(rs, step, r);
    BucketsAreOfPoints(out, step, r.task);
    assert p in out;
    assert HasPoint(out, step, r.task, Bucket(r, step));
  }

  lemma PointSits(rs: seq<Record>, step: int, r: Record)
    requires 0 < step
    ensures var p := At(rs, step, Bucket(r, step), r.task);
            p.task == r.task && OnGrid(p.ts, step) && TruncDiv(p.ts, step) == Bucket(r, step)
  {
    BucketOfPoint(Bucket(r, step), step);
    assert At(rs, step, Bucket(r, step), r.task).ts == Bucket(r, step) * step;
  }

  lemma ChartSitsOnTheGrid(rs: seq<Record>, step: int, out: seq<Point>)
    requires 0 < step && IsChart(rs, step, out)
    ensures InOrder(out) && forall p <- out :: OnGrid(p.ts, step)
    ensures forall p <- out :: exists r <- rs :: r.task == p.task && TruncDiv(p.ts, step) == Bucket(r, step)
  {
    hide At, OnGrid, TruncDiv;
    forall p | p in out
      ensures OnGrid(p.ts, step)
      ensures exists r <- rs :: r.task == p.task && TruncDiv(p.ts, step) == Bucket(r, step)
    {
      var r :| r in rs && p == At(rs, step, Bucket(r, step), r.task);
      PointSits(rs, step, r);
    }
  }

  // ---- which rows a point is about ----

  /** A row belongs to the point at `at` if it came in within a step of it: from there on, or before 1970 up to there. */
  predicate Falls(ts: int, at: int, step: int) {
    if 0 <= ts then at <= ts < at + step else at - step < ts <= at
  }

  lemma BucketIsWhereItFalls(ts: int, b: int, step: int)
    requires 0 < step
    ensures TruncDiv(ts, step) == b <==> Falls(ts, b * step, step)
  {
    var q := TruncDiv(ts, step);
    TruncDivTruncates(ts, step);
    hide TruncDiv;
    assert step * q == q * step;
    if Falls(ts, b * step, step) {
      OneMultipleFits(q, b, step);
    }
  }

  lemma OneMultipleFits(q: int, b: int, step: int)
    requires 0 < step && q * step < b * step + step && b * step < q * step + step
    ensures q == b
  {
    assert step * q == q * step && step * b == b * step;
    assert step * (b + 1) == step * b + step && step * (q + 1) == step * q + step;
    MulCancel(step, q, b + 1);
    MulCancel(step, b, q + 1);
  }

  predicate IsFor(p: Point, r: Record, step: int) { p.task == r.task && Falls(r.ts, p.ts, step) }

  /** In a chart each row falls to one point of its probe, and to no other. */
  lemma EachRowFallsToOnePoint(rs: seq<Record>, step: int, out: seq<Point>, r: Record)
    requires 0 < step && IsChart(rs, step, out) && r in rs
    ensures exists i :: 0 <= i < |out| && IsFor(out[i], r, step)
    ensures forall i, j :: 0 <= i < |out| && 0 <= j < |out| && IsFor(out[i], r, step) && IsFor(out[j], r, step) ==> i == j
  {
    PointIsFor(rs, step, r);
    var p := At(rs, step, Bucket(r, step), r.task);
    assert p in out;
    ChartSitsOnTheGrid(rs, step, out);
    hide At, OnGrid, TruncDiv, Bucket, IsChart, IsFor;
    forall i, j | 0 <= i < |out| && 0 <= j < |out| && IsFor(out[i], r, step) && IsFor(out[j], r, step) ensures i == j {
      OnePointForIt(out, step, r, i, j);
    }
  }

  lemma PointIsFor(rs: seq<Record>, step: int, r: Record)
    requires 0 < step
    ensures IsFor(At(rs, step, Bucket(r, step), r.task), r, step)
  {
    BucketIsWhereItFalls(r.ts, Bucket(r, step), step);
  }

  lemma OnePointForIt(out: seq<Point>, step: int, r: Record, i: nat, j: nat)
    requires 0 < step && InOrder(out) && (forall p <- out :: OnGrid(p.ts, step)) && i < |out| && j < |out|
    requires IsFor(out[i], r, step) && IsFor(out[j], r, step)
    ensures i == j
  {
    assert out[i] in out && out[j] in out;
    SamePlaceOnGrid(r.ts, out[i].ts, out[j].ts, step);
    assert !Earlier(out[i], out[j]) && !Earlier(out[j], out[i]);
  }

  lemma SamePlaceOnGrid(ts: int, s: int, t: int, step: int)
    requires 0 < step && OnGrid(s, step) && OnGrid(t, step) && Falls(ts, s, step) && Falls(ts, t, step)
    ensures s == t
  {
    var i :| s == i * step;
    var j :| t == j * step;
    OneMultipleFits(i, j, step);
  }

  predicate Fits(r: Record, step: int, task: int, at: int, lo: int, hi: int) {
    r.task == task && Falls(r.ts, at, step) && lo <= r.latency < hi
  }

  /** The rows, by index, of one probe that fall to the point at `at`, with a latency from `lo` up to and not including `hi`. */
  ghost function RowsWith(rs: seq<Record>, step: int, task: int, at: int, lo: int, hi: int): set<int> {
    set i | 0 <= i < |rs| && Fits(rs[i], step, task, at, lo, hi)
  }

  lemma OneMoreRow(rs: seq<Record>, step: int, task: int, at: int, lo: int, hi: int)
    requires rs != []
    ensures var n := |rs| - 1;
            |RowsWith(rs, step, task, at, lo, hi)|
            == |RowsWith(rs[..n], step, task, at, lo, hi)| + if Fits(rs[n], step, task, at, lo, hi) then 1 else 0
  {
    hide Fits;
    var n := |rs| - 1;
    var before, after := RowsWith(rs[..n], step, task, at, lo, hi), RowsWith(rs, step, task, at, lo, hi);
    if Fits(rs[n], step, task, at, lo, hi) {
      assert after == before + {n};
    } else {
      assert after == before;
    }
  }

  const LEAST := I64_MIN
  const BEYOND := I64_MAX + 1

  /** A group holds one latency for each row that falls there; the negative ones are losses, the others answers. */
  lemma {:induction false} GroupCountsItsRows(rs: seq<Record>, step: int, b: int, task: int, x: int)
    requires 0 < step
    ensures var g, at := Group(rs, step, b, task), b * step;
            && |g| == |RowsWith(rs, step, task, at, LEAST, BEYOND)|
            && Losses(g) == |RowsWith(rs, step, task, at, LEAST, 0)|
            && Below(Answers(g), x) == |RowsWith(rs, step, task, at, 0, x)|
  {
    if rs == [] {
      assert forall lo, hi :: RowsWith(rs, step, task, b * step, lo, hi) == {};
    } else {
      var n, at := |rs| - 1, b * step;
      var front, r := rs[..n], rs[n];
      var g := Group(front, step, b, task);
      GroupCountsItsRows(front, step, b, task, x);
      BucketIsWhereItFalls(r.ts, b, step);
      OneMoreRow(rs, step, task, at, LEAST, BEYOND);
      OneMoreRow(rs, step, task, at, LEAST, 0);
      OneMoreRow(rs, step, task, at, 0, x);
      hide Group, Answers, Losses, Below, RowsWith, TruncDiv, Falls;
      assert rs == front + [r];
      GroupOne(front, r, step, b, task);
      if r.task == task && Falls(r.ts, at, step) {
        AppendOne(g, r.latency);
        BelowOne(Answers(g), r.latency, x);
      } else {
        assert g + [] == g;
      }
      assert Answers(g) + [] == Answers(g);
    }
  }

  lemma BelowOne(s: seq<int>, y: int, x: int)
    ensures Below(s + [y], x) == Below(s, x) + if y < x then 1 else 0
  {
    CountsAppend(s, [y], x);
    assert [y][1..] == [];
  }

  lemma {:induction false} UpToIsBelowTheNext(s: seq<int>, x: int)
    ensures UpTo(s, x) == Below(s, x + 1)
  {
    if s != [] { UpToIsBelowTheNext(s[1..], x); }
  }

  /** Counted from the least, `x` is the answer at place `k` among the rows of a point. */
  ghost predicate AnswerAt(rs: seq<Record>, step: int, task: int, at: int, k: int, x: int) {
    |RowsWith(rs, step, task, at, 0, x)| <= k < |RowsWith(rs, step, task, at, 0, x + 1)|
  }

  /** `lo` and `hi` are the answers at the middle place or places of `n`. */
  ghost predicate MiddleAnswers(rs: seq<Record>, step: int, task: int, at: int, n: int, lo: int, hi: int) {
    AnswerAt(rs, step, task, at, (n - 1) / 2, lo) && AnswerAt(rs, step, task, at, n / 2, hi)
  }

  ghost function Total(rs: seq<Record>, step: int, task: int, at: int): nat { |RowsWith(rs, step, task, at, LEAST, BEYOND)| }

  ghost function TotalLost(rs: seq<Record>, step: int, task: int, at: int): nat { |RowsWith(rs, step, task, at, LEAST, 0)| }

  /** The mean, rounded down, of the answers at the middle place or places, unless adding them wraps; none if there are none. */
  ghost predicate TellsMiddle(rs: seq<Record>, step: int, task: int, at: int, n: int, latency: Option<int>) {
    && (latency.None? <==> n == 0)
    && (latency.Some? ==>
          exists lo, hi :: MiddleAnswers(rs, step, task, at, n, lo, hi)
            && (latency.value == (lo + hi) / 2 <==> n % 2 == 1 || lo + hi <= I64_MAX))
  }

  /**
   * A point in terms of the rows alone. It has a row; its latency is the middle of
   * those answered, and its loss the share of those lost, where any was.
   */
  ghost predicate TellsRows(rs: seq<Record>, step: int, p: Point) {
    var total, lost := Total(rs, step, p.task, p.ts), TotalLost(rs, step, p.task, p.ts);
    0 < total && lost <= total && TellsLoss(p.loss, lost, total)
    && TellsMiddle(rs, step, p.task, p.ts, total - lost, p.latency)
  }

  lemma PointsTellTheirRows(rs: seq<Record>, step: int, out: seq<Point>, p: Point)
    requires 0 < step && IsChart(rs, step, out) && p in out
    ensures TellsRows(rs, step, p)
  {
    var r :| r in rs && p == At(rs, step, Bucket(r, step), r.task);
    hide TellsRows, At, IsChart;
    RowHasAGroup(rs, step, r);
    GroupsPointTellsRows(rs, step, Bucket(r, step), r.task);
  }

  lemma GroupsPointTellsRows(rs: seq<Record>, step: int, b: int, task: int)
    requires 0 < step && 0 < |Group(rs, step, b, task)|
    ensures TellsRows(rs, step, At(rs, step, b, task))
  {
    hide *;
    var g, p := Group(rs, step, b, task), At(rs, step, b, task);
    AtTellsItsGroup(rs, step, b, task);
    GroupHasItsRows(rs, step, b, task);
    LatencyTellsRows(rs, step, b, task, g, p.latency);
    RowsFromGroup(rs, step, p, g);
  }

  lemma RowsFromGroup(rs: seq<Record>, step: int, p: Point, g: seq<int>)
    requires 0 < |g| == Total(rs, step, p.task, p.ts) && Losses(g) == TotalLost(rs, step, p.task, p.ts)
    requires |g| == |Answers(g)| + Losses(g)
    requires TellsLoss(p.loss, Losses(g), |g|) && TellsMiddle(rs, step, p.task, p.ts, |Answers(g)|, p.latency)
    ensures TellsRows(rs, step, p)
  {
    hide Answers, Losses, Total, TotalLost, TellsLoss, TellsMiddle;
  }

  lemma GroupHasItsRows(rs: seq<Record>, step: int, b: int, task: int)
    requires 0 < step
    ensures var g := Group(rs, step, b, task);
            && |g| == Total(rs, step, task, b * step) && Losses(g) == TotalLost(rs, step, task, b * step)
            && |g| == |Answers(g)| + Losses(g)
  {
    hide Group, Answers, Losses, RowsWith;
    GroupCountsItsRows(rs, step, b, task, 0);
    AnswersAndLossesSplit(Group(rs, step, b, task));
  }

  lemma AtTellsItsGroup(rs: seq<Record>, step: int, b: int, task: int)
    requires 0 < step
    ensures var p, g := At(rs, step, b, task), Group(rs, step, b, task);
            && p.task == task && p.ts == b * step
            && TellsLatency(p.latency, Answers(g)) && TellsLoss(p.loss, Losses(g), |g|)
  {
    hide Group, Answers, Losses, TellsLatency, TellsLoss, TellsBand;
    AnswersAreLatencies(rs, step, b, task);
    DescribeTells(task, b * step, Group(rs, step, b, task));
  }

  lemma LatencyTellsRows(rs: seq<Record>, step: int, b: int, task: int, g: seq<int>, latency: Option<int>)
    requires 0 < step && g == Group(rs, step, b, task) && TellsLatency(latency, Answers(g))
    ensures TellsMiddle(rs, step, task, b * step, |Answers(g)|, latency)
  {
    hide Group, Answers, Sorted, Ordered, AnswerAt, IsMedian;
    var s, n := Sorted(Answers(g)), |Answers(g)|;
    if latency.Some? {
      AnswerIsAt(rs, step, b, task, g, (n - 1) / 2);
      AnswerIsAt(rs, step, b, task, g, n / 2);
      MedianIs(Answers(g), latency.value);
      assert MiddleAnswers(rs, step, task, b * step, n, s[(n - 1) / 2], s[n / 2]);
    }
  }

  lemma AnswerIsAt(rs: seq<Record>, step: int, b: int, task: int, g: seq<int>, k: nat)
    requires 0 < step && g == Group(rs, step, b, task) && k < |Answers(g)|
    ensures AnswerAt(rs, step, task, b * step, k, Sorted(Answers(g))[k])
  {
    hide Group, Answers, Sorted, Ordered, IsRank, AnswerAt;
    SortedRanks(Answers(g), k);
    RanksCountRows(rs, step, b, task, g, k, Sorted(Answers(g))[k]);
  }

  lemma RanksCountRows(rs: seq<Record>, step: int, b: int, task: int, g: seq<int>, k: nat, x: int)
    requires 0 < step && g == Group(rs, step, b, task) && IsRank(Answers(g), k, x)
    ensures AnswerAt(rs, step, task, b * step, k, x)
  {
    hide Group, Answers, RowsWith, Below, UpTo;
    UpToIsBelowTheNext(Answers(g), x);
    GroupCountsItsRows(rs, step, b, task, x);
    GroupCountsItsRows(rs, step, b, task, x + 1);
  }

  lemma {:induction false} RowHasAGroup(rs: seq<Record>, step: int, r: Record)
    requires 0 < step && r in rs
    ensures 0 < |Group(rs, step, Bucket(r, step), r.task)|
  {
    hide Bucket;
    var n := |rs| - 1;
    if rs[n] != r { RowHasAGroup(rs[..n], step, r); }
  }

  // ---- what a point tells ----

  lemma {:induction false} AnswersAreLatencies(rs: seq<Record>, step: int, b: int, task: int)
    requires 0 < step
    ensures forall x <- Answers(Group(rs, step, b, task)) :: 0 <= x <= I64_MAX
  {
    if rs != [] {
      var n := |rs| - 1;
      AnswersAreLatencies(rs[..n], step, b, task);
      var g := Group(rs[..n], step, b, task);
      AppendOne(g, rs[n].latency);
      assert g + [] == g;
    }
  }

  /** A point's latency is its bucket's median, unless the middle two answers wrap when added. */
  ghost predicate TellsLatency(latency: Option<int>, answered: seq<int>) {
    if answered == [] then latency.None?
    else
      var s, n := Sorted(answered), |answered|;
      latency.Some? && (IsMedian(answered, latency.value) <==> n % 2 == 1 || s[(n - 1) / 2] + s[n / 2] <= I64_MAX)
  }

  /** Its band spans the answers, where two of them differ. */
  ghost predicate TellsBand(band: Option<(int, int)>, answered: seq<int>) {
    && (band.Some? <==> exists x, y :: x in answered && y in answered && x != y)
    && (band.Some? ==>
          && band.value.0 in answered && band.value.1 in answered
          && forall x <- answered :: band.value.0 <= x <= band.value.1)
  }

  /** Its loss is the share lost, where any was. */
  ghost predicate TellsLoss(loss: Option<int>, lost: nat, total: nat) {
    (loss.Some? <==> lost > 0) && (loss.Some? ==> 100 * lost <= loss.value * total < 100 * lost + total)
  }

  ghost predicate Tells(p: Point, g: seq<int>) {
    TellsLatency(p.latency, Answers(g)) && TellsBand(p.band, Answers(g)) && TellsLoss(p.loss, Losses(g), |g|)
  }

  lemma MiddleTells(answered: seq<int>)
    requires forall x <- answered :: 0 <= x <= I64_MAX
    ensures TellsLatency(Middle(Sorted(answered)), answered)
  {
    hide Middle, Sorted, Ordered, IsMedian;
    LatencyIsTheMedianUnlessItWraps(answered);
  }

  lemma DescribeTells(task: int, ts: int, g: seq<int>)
    requires forall x <- Answers(g) :: 0 <= x <= I64_MAX
    ensures Tells(Describe(task, ts, Answers(g), Losses(g)), g)
  {
    hide Middle, Sorted, Ordered, TellsLatency, Answers, Losses;
    MiddleTells(Answers(g));
    AnswersAndLossesSplit(g);
    BandAndLossTellWhatTheBucketHeld(task, ts, Answers(g), Losses(g));
  }

  /** Every point of a chart tells the latency, band and loss of the rows that share its bucket and probe. */
  lemma PointsTellWhatTheirBucketsHeld(rs: seq<Record>, step: int, out: seq<Point>, p: Point)
    requires 0 < step && IsChart(rs, step, out) && p in out
    ensures exists r <- rs ::
      p.task == r.task && p.ts == Bucket(r, step) * step && Tells(p, Group(rs, step, Bucket(r, step), r.task))
  {
    var r :| r in rs && p == At(rs, step, Bucket(r, step), r.task);
    hide Tells, Group, IsChart;
    AnswersAreLatencies(rs, step, Bucket(r, step), r.task);
    DescribeTells(r.task, Bucket(r, step) * step, Group(rs, step, Bucket(r, step), r.task));
  }

  // ---- how many points ----

  const SAMPLES := 1_440

  function Budget(points: Option<int>): (n: int)
    ensures 60 <= n <= SAMPLES
    ensures points == None ==> n == SAMPLES
    ensures points.Some? && 60 <= points.value <= SAMPLES ==> n == points.value
    ensures points.Some? && points.value < 60 ==> n == 60
    ensures points.Some? && SAMPLES < points.value ==> n == SAMPLES
  {
    match points case None => SAMPLES case Some(p) => Max(60, Min(p, SAMPLES))
  }

  /** Seconds between samples for a window of `hours`, in whole minutes. */
  function SampleStep(hours: int, points: Option<int>): (step: int)
    requires 1 <= hours
    ensures 60 <= step && step % 60 == 0
    ensures hours * 3_600 <= Budget(points) * step
    ensures step == 60 || Budget(points) * (step - 60) < hours * 3_600
  {
    BudgetSpansTheWindow(hours * 60, Budget(points));
    var minutes := Max(1, (hours * 60 + Budget(points) - 1) / Budget(points));
    60 * minutes
  }

  /** A step of so many minutes spans the window within the budget, and no shorter one does. */
  lemma BudgetSpansTheWindow(a: int, n: int)
    requires 0 < n
    ensures var m := Max(1, (a + n - 1) / n);
            a * 60 <= n * (60 * m) && (m == 1 || n * (60 * m - 60) < a * 60)
  {
    RoundedUp(a, n);
    var q := (a + n - 1) / n;
    var m := Max(1, q);
    MulMonotone(n, q, m);
    assert n * (60 * m) == 60 * (n * m) && q * n == n * q;
    assert n * (60 * m - 60) == 60 * (n * m) - 60 * n;
  }

  lemma BucketsInWindow(since: int, now: int, step: int, n: int)
    requires 0 < step && 0 <= n && since <= now && now - since <= n * step
    ensures TruncDiv(now, step) - TruncDiv(since, step) <= n
  {
    if since >= 0 {
      DivSpan(since, now, step, n);
    } else if now < 0 {
      DivSpan(-now, -since, step, n);
    } else {
      var q, r := now / step, (-since) / step;
      assert now == step * q + now % step && -since == step * r + (-since) % step;
      assert step * (n + 1) == n * step + step && step * (q + r) == step * q + step * r;
      MulCancel(step, q + r, n + 1);
    }
  }

  lemma DivSpan(a: int, c: int, step: int, n: int)
    requires 0 < step && 0 <= n && 0 <= a <= c && c - a <= n * step
    ensures c / step - a / step <= n
  {
    var q, r := a / step, c / step;
    assert a == step * q + a % step && c == step * r + c % step;
    assert step * (q + n + 1) == step * q + n * step + step;
    MulCancel(step, r, q + n + 1);
  }

  lemma {:induction false} AscendingFits(bs: seq<int>, lo: int, hi: int)
    requires Ascending(bs) && (forall b <- bs :: lo <= b <= hi) && lo <= hi + 1
    ensures |bs| <= hi - lo + 1
    decreases |bs|
  {
    if bs != [] {
      var n := |bs| - 1;
      assert bs[n] in bs;
      forall b | b in bs[..n] ensures lo <= b <= bs[n] - 1 { assert b in bs; }
      AscendingFits(bs[..n], lo, bs[n] - 1);
    }
  }

  lemma PointsFitTheWindow(rs: seq<Record>, step: int, n: int, since: int, now: int, out: seq<Point>, task: int)
    requires 0 < step && 0 <= n && since <= now && now - since <= n * step
    requires (forall r <- rs :: since <= r.ts <= now) && IsChart(rs, step, out)
    ensures |BucketsOf(out, step, task)| <= n + 1
  {
    hide IsChart, BucketsOf, TruncDiv, Ascending, Bucket;
    var lo, hi := TruncDiv(since, step), TruncDiv(now, step);
    BucketsInWindow(since, now, step, n);
    TruncDivMonotone(since, now, step);
    ChartSitsOnTheGrid(rs, step, out);
    BucketsAscend(out, step, task);
    BucketsAreOfPoints(out, step, task);
    forall b | b in BucketsOf(out, step, task) ensures lo <= b <= hi {
      assert HasPoint(out, step, task, b);
      var p :| p in out && p.task == task && b == TruncDiv(p.ts, step);
      var r :| r in rs && r.task == p.task && TruncDiv(p.ts, step) == Bucket(r, step);
      BucketBetween(r, since, now, step);
    }
    AscendingFits(BucketsOf(out, step, task), lo, hi);
  }

  lemma BucketBetween(r: Record, since: int, now: int, step: int)
    requires 0 < step && since <= r.ts <= now
    ensures TruncDiv(since, step) <= Bucket(r, step) <= TruncDiv(now, step)
  {
    TruncDivMonotone(since, r.ts, step);
    TruncDivMonotone(r.ts, now, step);
  }

  /**
   * A window drawn at the step its width asks for holds at most one point more
   * than the budget for each probe.
   */
  lemma EachProbeStaysWithinItsBudget(rs: seq<Record>, hours: int, points: Option<int>, now: int, out: seq<Point>, task: int)
    requires 1 <= hours && forall r <- rs :: now - hours * 3_600 <= r.ts <= now
    requires IsChart(rs, SampleStep(hours, points), out)
    ensures |BucketsOf(out, SampleStep(hours, points), task)| <= Budget(points) + 1
  {
    PointsFitTheWindow(rs, SampleStep(hours, points), Budget(points), now - hours * 3_600, now, out, task);
  }
}

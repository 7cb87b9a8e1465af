/**
 * Version ordering for theme updates: dot-separated segments, each a numeral and
 * what follows it, a missing segment reading as a plain zero; and the fold that
 * picks the newest of a theme's releases.
 */
module Versions {
  import opened Basics

  const U64_MAX := 0xffff_ffff_ffff_ffff

  /** A numeral, whether nothing follows it, and what does. */
  datatype Segment = Segment(number: nat, release: bool, suffix: string)

  const MISSING := Segment(0, true, "")

  predicate IsDigit(c: char) { '0' <= c <= '9' }

  function Digits(s: string): (n: nat)
    ensures n <= |s|
  {
    if s == "" || !IsDigit(s[0]) then 0 else 1 + Digits(s[1..])
  }

  function Value(digits: string): nat {
    if digits == "" then 0
    else
      var c := digits[|digits| - 1];
      Value(digits[..|digits| - 1]) * 10 + if IsDigit(c) then c as int - '0' as int else 0
  }

  /** A numeral too large for 64 bits, like one that is absent, reads as zero. */
  function Parse(s: string): Segment {
    var n := Digits(s);
    Segment(if Value(s[..n]) <= U64_MAX then Value(s[..n]) else 0, s[n..] == "", s[n..])
  }

  function Segments(s: string): seq<Segment> {
    var n := Dot(s);
    if n == |s| then [Parse(s)] else [Parse(s[..n])] + Segments(s[n + 1..])
  }

  function Dot(s: string): (n: nat)
    ensures n <= |s|
  {
    if s == "" || s[0] == '.' then 0 else 1 + Dot(s[1..])
  }

  // ---- the order of segments ----

  predicate TextBelow(a: string, b: string)
    decreases a
  {
    b != "" && (a == "" || a[0] < b[0] || (a[0] == b[0] && TextBelow(a[1..], b[1..])))
  }

  predicate Greater(x: Segment, y: Segment) {
    || x.number > y.number
    || (x.number == y.number && x.release && !y.release)
    || (x.number == y.number && x.release == y.release && TextBelow(y.suffix, x.suffix))
  }

  lemma {:induction false} TextIsOrdered(a: string, b: string, c: string)
    ensures !TextBelow(a, a)
    ensures TextBelow(a, b) && TextBelow(b, c) ==> TextBelow(a, c)
    ensures a == b || TextBelow(a, b) || TextBelow(b, a)
    ensures !(TextBelow(a, b) && TextBelow(b, a))
    decreases |a| + |b| + |c|
  {
    if a != "" && b != "" && c != "" {
      TextIsOrdered(a[1..], b[1..], c[1..]);
      if a[0] == b[0] && a[1..] == b[1..] { assert a == b; }
    } else if a != "" && b != "" {
      TextIsOrdered(a[1..], b[1..], c);
      if a[0] == b[0] && a[1..] == b[1..] { assert a == b; }
    } else if a != "" {
      TextIsOrdered(a[1..], b, "");
    }
  }

  lemma SegmentsAreOrdered(x: Segment, y: Segment, z: Segment)
    ensures !Greater(x, x)
    ensures Greater(x, y) && Greater(y, z) ==> Greater(x, z)
    ensures x == y || Greater(x, y) || Greater(y, x)
    ensures !(Greater(x, y) && Greater(y, x))
  {
    TextIsOrdered(z.suffix, y.suffix, x.suffix);
    TextIsOrdered(x.suffix, y.suffix, z.suffix);
  }

  // ---- the order of versions ----

  /** The first difference decides; past the end of one side the next segment is compared with a plain zero. */
  predicate NewerSegments(a: seq<Segment>, b: seq<Segment>)
    decreases a
  {
    if a == [] then b != [] && Greater(MISSING, b[0])
    else if b == [] then Greater(a[0], MISSING)
    else if a[0] != b[0] then Greater(a[0], b[0])
    else NewerSegments(a[1..], b[1..])
  }

  predicate IsNewer(a: string, b: string) { NewerSegments(Segments(a), Segments(b)) }

  method Newer(a: string, b: string) returns (r: bool)
    ensures r == IsNewer(a, b)
  {
    var x, y := Segments(a), Segments(b);
    while true
      invariant IsNewer(a, b) == NewerSegments(x, y)
      decreases |x|
    {
      if x == [] && y == [] {
        return false;
      } else if y == [] {
        return Greater(x[0], MISSING);
      } else if x == [] {
        return Greater(MISSING, y[0]);
      } else if x[0] != y[0] {
        return Greater(x[0], y[0]);
      }
      x, y := x[1..], y[1..];
    }
  }

  lemma {:induction false} SegmentListsAreOrdered(a: seq<Segment>, b: seq<Segment>, c: seq<Segment>)
    ensures !NewerSegments(a, a)
    ensures !(NewerSegments(a, b) && NewerSegments(b, a))
    ensures NewerSegments(a, b) && NewerSegments(b, c) ==> NewerSegments(a, c)
    decreases |a| + |b| + |c|
  {
    var x := if a == [] then MISSING else a[0];
    var y := if b == [] then MISSING else b[0];
    var z := if c == [] then MISSING else c[0];
    SegmentsAreOrdered(x, y, z);
    SegmentsAreOrdered(x, z, y);
    SegmentsAreOrdered(y, z, x);
    if a != [] || b != [] || c != [] {
      SegmentListsAreOrdered(if a == [] then [] else a[1..], if b == [] then [] else b[1..], if c == [] then [] else c[1..]);
    }
  }

  /** On all version strings `newer` is a strict order. */
  lemma NewerIsAStrictOrder(a: string, b: string, c: string)
    ensures !IsNewer(a, a)
    ensures !(IsNewer(a, b) && IsNewer(b, a))
    ensures IsNewer(a, b) && IsNewer(b, c) ==> IsNewer(a, c)
  {
    SegmentListsAreOrdered(Segments(a), Segments(b), Segments(c));
  }

  predicate Ties(a: string, b: string) { !IsNewer(a, b) && !IsNewer(b, a) }

  lemma {:induction false} DotAfter(a: string, rest: string)
    requires forall i :: 0 <= i < |a| ==> a[i] != '.'
    ensures Dot(a + ['.'] + rest) == |a| && Dot(a) == |a|
  {
    if a != "" {
      assert (a + ['.'] + rest)[1..] == a[1..] + ['.'] + rest;
      DotAfter(a[1..], rest);
    }
  }

  lemma SegmentsSplit(a: string, rest: string)
    requires forall i :: 0 <= i < |a| ==> a[i] != '.'
    ensures Segments(a + ['.'] + rest) == [Parse(a)] + Segments(rest)
    ensures Segments(a) == [Parse(a)]
  {
    DotAfter(a, rest);
    var s := a + ['.'] + rest;
    assert s[..|a|] == a && s[|a| + 1..] == rest;
  }

  lemma OneDigit(c: char)
    requires IsDigit(c)
    ensures Parse([c]) == Segment(c as int - '0' as int, true, "")
  {
    assert [c][1..] == "" && Digits([c]) == 1 && [c][..1] == [c] && [c][..0] == "";
    assert Value([c]) == c as int - '0' as int;
  }

  // ---- what the order is about: numbers, then releases before their candidates ----

  const DIGITS := "0123456789"

  /** The usual decimal numeral. */
  function Decimal(n: nat): string {
    (if n < 10 then "" else Decimal(n / 10)) + [DIGITS[n % 10]]
  }

  lemma DigitsAreDigits(d: nat)
    requires d < 10
    ensures IsDigit(DIGITS[d]) && DIGITS[d] as int - '0' as int == d
  {
  }

  predicate AllDigits(s: string) { forall i :: 0 <= i < |s| ==> IsDigit(s[i]) }

  lemma ValueOfOneMore(s: string, c: char)
    requires AllDigits(s) && IsDigit(c)
    ensures Value(s + [c]) == Value(s) * 10 + (c as int - '0' as int) && AllDigits(s + [c])
  {
    assert (s + [c])[..|s|] == s;
  }

  lemma {:induction false} NumeralsReadBack(n: nat)
    ensures var s := Decimal(n); s != "" && AllDigits(s) && Value(s) == n
  {
    var front := if n < 10 then "" else Decimal(n / 10);
    if n >= 10 { NumeralsReadBack(n / 10); }
    assert Value("") == 0;
    DigitsAreDigits(n % 10);
    hide Value;
    ValueOfOneMore(front, DIGITS[n % 10]);
    assert Decimal(n) == front + [DIGITS[n % 10]];
  }

  lemma {:induction false} DigitsStopAtTheSuffix(s: string, suffix: string)
    requires AllDigits(s) && (suffix == "" || !IsDigit(suffix[0]))
    ensures Digits(s + suffix) == |s|
  {
    if s == "" {
      assert s + suffix == suffix;
    } else {
      assert (s + suffix)[1..] == s[1..] + suffix;
      DigitsStopAtTheSuffix(s[1..], suffix);
    }
  }

  /** A segment reads as its number, if 64 bits hold it, and what follows. */
  lemma SegmentsReadAsNumbers(n: nat, suffix: string)
    requires suffix == "" || !IsDigit(suffix[0])
    ensures Parse(Decimal(n) + suffix) == Segment(if n <= U64_MAX then n else 0, suffix == "", suffix)
  {
    var s := Decimal(n);
    NumeralsReadBack(n);
    DigitsStopAtTheSuffix(s, suffix);
    assert (s + suffix)[..|s|] == s && (s + suffix)[|s|..] == suffix;
  }

  lemma NumeralsHaveNoDot(n: nat, i: nat)
    requires i < |Decimal(n)|
    ensures Decimal(n)[i] != '.'
  {
    NumeralsReadBack(n);
    assert IsDigit(Decimal(n)[i]);
  }

  /** A release by its numbers, such as 1.10.0, with what may follow the last. */
  function Dotted(ns: seq<nat>, suffix: string): string
    requires ns != []
  {
    if |ns| == 1 then Decimal(ns[0]) + suffix else Decimal(ns[0]) + ['.'] + Dotted(ns[1..], suffix)
  }

  function Numbered(ns: seq<nat>, suffix: string): seq<Segment>
    requires ns != []
  {
    if |ns| == 1 then [Segment(ns[0], suffix == "", suffix)] else [Segment(ns[0], true, "")] + Numbered(ns[1..], suffix)
  }

  predicate Plain(suffix: string) {
    (suffix == "" || !IsDigit(suffix[0])) && forall i :: 0 <= i < |suffix| ==> suffix[i] != '.'
  }

  lemma {:induction false} DottedReadsAsNumbered(ns: seq<nat>, suffix: string)
    requires ns != [] && Plain(suffix) && forall i :: 0 <= i < |ns| ==> ns[i] <= U64_MAX
    ensures Segments(Dotted(ns, suffix)) == Numbered(ns, suffix)
  {
    hide Segments, Parse, Decimal;
    forall i | 0 <= i < |Decimal(ns[0])| ensures Decimal(ns[0])[i] != '.' { NumeralsHaveNoDot(ns[0], i); }
    if |ns| == 1 {
      SegmentsReadAsNumbers(ns[0], suffix);
      SegmentsSplit(Decimal(ns[0]) + suffix, "");
    } else {
      SegmentsReadAsNumbers(ns[0], "");
      assert Decimal(ns[0]) + "" == Decimal(ns[0]);
      DottedReadsAsNumbered(ns[1..], suffix);
      SegmentsSplit(Decimal(ns[0]), Dotted(ns[1..], suffix));
    }
  }

  /** Numbers compare as numbers, from the left. */
  predicate Above(a: seq<nat>, b: seq<nat>)
    requires |a| == |b|
  {
    a != [] && (a[0] > b[0] || (a[0] == b[0] && Above(a[1..], b[1..])))
  }

  lemma {:induction false} NumberedCompares(a: seq<nat>, b: seq<nat>, x: string, y: string)
    requires a != [] && |a| == |b|
    ensures NewerSegments(Numbered(a, x), Numbered(b, y)) <==>
            Above(a, b) || (a == b && ((x == "" && y != "") || (x != "" && y != "" && TextBelow(y, x))))
  {
    if |a| == 1 {
      TextIsOrdered(x, y, x);
      assert a == [a[0]] && b == [b[0]];
    } else {
      NumberedCompares(a[1..], b[1..], x, y);
      assert a == [a[0]] + a[1..] && b == [b[0]] + b[1..];
    }
  }

  /**
   * Of two versions with as many numbers the newer is the one with the higher, the
   * first difference deciding, so that 1.10 is newer than 1.9; with the same
   * numbers a release is newer than any candidate for it, and of two candidates the
   * one whose text is later.
   */
  lemma VersionsCompareAsNumbers(a: seq<nat>, b: seq<nat>, x: string, y: string)
    requires a != [] && |a| == |b| && Plain(x) && Plain(y)
    requires (forall i :: 0 <= i < |a| ==> a[i] <= U64_MAX) && forall i :: 0 <= i < |b| ==> b[i] <= U64_MAX
    ensures IsNewer(Dotted(a, x), Dotted(b, y)) <==>
            Above(a, b) || (a == b && ((x == "" && y != "") || (x != "" && y != "" && TextBelow(y, x))))
  {
    DottedReadsAsNumbered(a, x);
    DottedReadsAsNumbered(b, y);
    NumberedCompares(a, b, x, y);
  }

  /** Text orders by the first character that differs, a part of a text before the whole. */
  lemma {:induction false} TextOrdersByTheFirstDifference(common: string, c: char, d: char, s: string, t: string)
    ensures TextBelow(common + ([c] + s), common + ([d] + t)) <==> c < d || (c == d && TextBelow(s, t))
    ensures TextBelow(common, common + ([d] + t))
  {
    if common == "" {
      assert common + ([c] + s) == [c] + s && common + ([d] + t) == [d] + t;
      assert ([c] + s)[1..] == s && ([d] + t)[1..] == t;
    } else {
      assert (common + ([c] + s))[1..] == common[1..] + ([c] + s) && (common + ([d] + t))[1..] == common[1..] + ([d] + t);
      TextOrdersByTheFirstDifference(common[1..], c, d, s, t);
    }
  }

  // ---- exactly when versions tie ----

  predicate TiedLists(a: seq<Segment>, b: seq<Segment>) { !NewerSegments(a, b) && !NewerSegments(b, a) }

  /** `b` goes on after `a`, and with a plain zero. */
  predicate ZeroFollows(a: seq<Segment>, b: seq<Segment>) { |a| < |b| && a == b[..|a|] && b[|a|] == MISSING }

  lemma {:induction false} ListsTieExactly(a: seq<Segment>, b: seq<Segment>)
    ensures TiedLists(a, b) <==> a == b || ZeroFollows(a, b) || ZeroFollows(b, a)
    decreases |a| + |b|
  {
    if a != [] && b != [] && a[0] == b[0] {
      ListsTieExactly(a[1..], b[1..]);
      OneFurther(a, b);
      OneFurther(b, a);
    } else {
      SegmentsAreOrdered(if a == [] then MISSING else a[0], if b == [] then MISSING else b[0], MISSING);
    }
  }

  lemma OneFurther(a: seq<Segment>, b: seq<Segment>)
    requires a != [] && b != [] && a[0] == b[0]
    ensures ZeroFollows(a, b) <==> ZeroFollows(a[1..], b[1..])
    ensures a == b <==> a[1..] == b[1..]
  {
    assert a == [a[0]] + a[1..] && b == [b[0]] + b[1..];
    if |a| < |b| {
      assert b[..|a|] == [b[0]] + b[1..][..|a| - 1];
    }
  }

  /**
   * Two versions tie exactly when they have the same segments, or one goes on
   * after the other's last with a plain zero -- whatever follows that zero.
   */
  lemma VersionsTieExactly(a: string, b: string)
    ensures var x, y := Segments(a), Segments(b);
            Ties(a, b) <==> x == y || ZeroFollows(x, y) || ZeroFollows(y, x)
  {
    ListsTieExactly(Segments(a), Segments(b));
  }

  /**
   * A version that ties two others makes them tie exactly unless both go on after
   * it and differ past the zero they go on with.
   */
  lemma TiesCarryOverExactly(a: string, b: string, c: string)
    requires Ties(a, b) && Ties(b, c)
    ensures var x, y, z := Segments(a), Segments(b), Segments(c);
            Ties(a, c) <==> |x| <= |y| || |z| <= |y| || TiedLists(x[|y| + 1..], z[|y| + 1..])
  {
    hide Segments, NewerSegments;
    var x, y, z := Segments(a), Segments(b), Segments(c);
    ListsTieExactly(x, y);
    ListsTieExactly(y, z);
    ListsTieExactly(x, z);
    if |y| < |x| && |y| < |z| {
      var p := y + [MISSING];
      assert x == p + x[|y| + 1..] && z == p + z[|y| + 1..];
      SamePrefix(p, x[|y| + 1..], z[|y| + 1..]);
      SamePrefix(p, z[|y| + 1..], x[|y| + 1..]);
    } else {
      TiesThroughALongerOne(x, y, z);
    }
  }

  lemma TiesThroughALongerOne(x: seq<Segment>, y: seq<Segment>, z: seq<Segment>)
    requires x == y || ZeroFollows(x, y) || ZeroFollows(y, x)
    requires y == z || ZeroFollows(y, z) || ZeroFollows(z, y)
    requires |x| <= |y| || |z| <= |y|
    ensures x == z || ZeroFollows(x, z) || ZeroFollows(z, x)
  {
    if |x| < |z| {
      assert z[..|x|] == if |z| <= |y| then y[..|z|][..|x|] else z[..|y|][..|x|];
    } else if |z| < |x| {
      assert x[..|z|] == if |x| <= |y| then y[..|x|][..|z|] else x[..|y|][..|z|];
    }
  }

  // ---- the order as documented ----

  function First(a: seq<Segment>): Segment { if a == [] then MISSING else a[0] }

  function Rest(a: seq<Segment>): seq<Segment> { if a == [] then [] else a[1..] }

  /** A side that runs out reads all its missing segments as plain zeros. */
  predicate NewerPadded(a: seq<Segment>, b: seq<Segment>)
    decreases |a| + |b|
  {
    (a != [] || b != []) &&
    if First(a) != First(b) then Greater(First(a), First(b)) else NewerPadded(Rest(a), Rest(b))
  }

  predicate Zeros(a: seq<Segment>) { forall i :: 0 <= i < |a| ==> a[i] == MISSING }

  /** `b` goes on after `a` with a plain zero, but not with plain zeros only. */
  predicate Cut(a: seq<Segment>, b: seq<Segment>) { ZeroFollows(a, b) && !Zeros(b[|a|..]) }

  lemma {:induction false} PaddedTies(b: seq<Segment>)
    ensures (!NewerPadded([], b) && !NewerPadded(b, [])) <==> Zeros(b)
  {
    if b != [] {
      SegmentsAreOrdered(MISSING, b[0], MISSING);
      PaddedTies(b[1..]);
      if Zeros(b[1..]) && b[0] == MISSING {
        assert forall i :: 0 < i < |b| ==> b[i] == b[1..][i - 1];
      }
      if Zeros(b) {
        assert forall i :: 0 <= i < |b| - 1 ==> b[1..][i] == b[i + 1];
      }
    }
  }

  predicate AgreesWithPadding(a: seq<Segment>, b: seq<Segment>) {
    (NewerSegments(a, b) <==> NewerPadded(a, b)) && (NewerSegments(b, a) <==> NewerPadded(b, a))
  }

  lemma {:induction false} OnlyCutsDisagree(a: seq<Segment>, b: seq<Segment>)
    ensures AgreesWithPadding(a, b) <==> !Cut(a, b) && !Cut(b, a)
    decreases |a| + |b|
  {
    if a != [] && b != [] && a[0] == b[0] {
      OnlyCutsDisagree(a[1..], b[1..]);
      CutOneFurther(a, b);
      CutOneFurther(b, a);
    } else if a == [] && b != [] {
      PastTheEnd(b);
    } else if b == [] && a != [] {
      PastTheEnd(a);
    }
  }

  lemma CutOneFurther(a: seq<Segment>, b: seq<Segment>)
    requires a != [] && b != [] && a[0] == b[0]
    ensures Cut(a, b) <==> Cut(a[1..], b[1..])
  {
    OneFurther(a, b);
    if |a| <= |b| { assert b[1..][|a| - 1..] == b[|a|..]; }
  }

  lemma PastTheEnd(b: seq<Segment>)
    requires b != []
    ensures AgreesWithPadding([], b) <==> !Cut([], b)
  {
    assert b[..0] == [] && b[0..] == b;
    SegmentsAreOrdered(MISSING, b[0], MISSING);
    PaddedTies(b);
    if b[0] != MISSING { assert !Zeros(b); }
  }

  /**
   * The order is the documented one, in both directions, exactly unless one version
   * goes on after the other with a plain zero and then with something else: the
   * loop reads the first missing segment as zero, and no further one.
   */
  lemma MissingSegmentsReadAsZeroExactly(a: string, b: string)
    ensures var x, y := Segments(a), Segments(b);
            ((IsNewer(a, b) <==> NewerPadded(x, y)) && (IsNewer(b, a) <==> NewerPadded(y, x)))
            <==> !Cut(x, y) && !Cut(y, x)
  {
    OnlyCutsDisagree(Segments(a), Segments(b));
  }

  /**
   * Both happen: `1.2` ties two versions of which one is newer than the other, and
   * loses to that one by the documented order.
   */
  lemma TiesDoNotCarryOver()
    ensures Ties("1.2", "1.2.0") && Ties("1.2", "1.2.0.1") && IsNewer("1.2.0.1", "1.2.0")
    ensures Cut(Segments("1.2"), Segments("1.2.0.1"))
  {
    hide Segments, Parse;
    OneDigit('0');
    OneDigit('1');
    OneDigit('2');
    var one, two, nil := Segment(1, true, ""), Segment(2, true, ""), MISSING;
    SegmentsSplit("2", "0");
    SegmentsSplit("0", "1");
    SegmentsSplit("1", "2");
    assert "1.2" == "1" + ['.'] + "2" && "2.0" == "2" + ['.'] + "0" && "0.1" == "0" + ['.'] + "1";
    SegmentsSplit("1", "2.0");
    assert "1.2.0" == "1" + ['.'] + "2.0";
    SegmentsSplit("2", "0.1");
    assert "2.0.1" == "2" + ['.'] + "0.1";
    SegmentsSplit("1", "2.0.1");
    assert "1.2.0.1" == "1" + ['.'] + "2.0.1";
    assert Segments("0") == [nil] && Segments("1") == [one] && Segments("2") == [two];
    assert Segments("1.2") == [one, two];
    assert Segments("1.2.0") == [one, two, nil];
    assert Segments("1.2.0.1") == [one, two, nil, one];
    TiesInSegments(one, two, nil);
  }

  lemma TiesInSegments(one: Segment, two: Segment, nil: Segment)
    requires nil == MISSING && Greater(one, nil)
    ensures var a, b, c := [one, two], [one, two, nil], [one, two, nil, one];
            && !NewerSegments(a, b) && !NewerSegments(b, a) && !NewerSegments(a, c) && !NewerSegments(c, a)
            && NewerSegments(c, b)
  {
    SegmentsAreOrdered(nil, nil, nil);
    SamePrefix([one, two], [], [nil]);
    SamePrefix([one, two], [nil], []);
    SamePrefix([one, two], [], [nil, one]);
    SamePrefix([one, two], [nil, one], []);
    SamePrefix([one, two, nil], [one], []);
    assert [one, two] + [nil] == [one, two, nil] && [one, two] + [nil, one] == [one, two, nil, one];
    assert [one, two, nil] + [one] == [one, two, nil, one];
    assert [one, two] + [] == [one, two] && [one, two, nil] + [] == [one, two, nil];
  }

  lemma {:induction false} SamePrefix(p: seq<Segment>, a: seq<Segment>, b: seq<Segment>)
    ensures NewerSegments(p + a, p + b) == NewerSegments(a, b)
  {
    if p == [] {
      assert p + a == a && p + b == b;
    } else {
      assert (p + a)[1..] == p[1..] + a && (p + b)[1..] == p[1..] + b;
      SamePrefix(p[1..], a, b);
    }
  }

  // ---- the newest release ----

  datatype Release = Release(tag: string, archived: bool)

  datatype Candidate = Candidate(tag: string, version: string)

  predicate PathChar(c: char) {
    'a' <= c <= 'z' || 'A' <= c <= 'Z' || IsDigit(c) || c == '-' || c == '_' || c == '.'
  }

  predicate PathSegment(s: string) { s != "" && s != "." && s != ".." && forall c <- s :: PathChar(c) }

  /** A tag put into an address neither opens a segment there nor leaves the one it is in. */
  lemma UsableTagsStayInTheirSegment(s: string, c: char)
    requires PathSegment(s)
    ensures s != "" && s != "." && s != ".."
    ensures c in s ==> '-' <= c <= 'z' && c !in "/:;<=>?@[\\]^`"
  {
  }

  predicate Ours(r: Release, prefix: string) {
    r.archived && |prefix| <= |r.tag| && r.tag[..|prefix|] == prefix
  }

  function VersionOf(r: Release, prefix: string): string
    requires Ours(r, prefix)
  {
    var tail := r.tag[|prefix|..];
    if tail != "" && tail[0] == 'v' then tail[1..] else tail
  }

  /** A theme's tag is its prefix and its version, with or without a `v` before it. */
  lemma VersionsFollowThePrefix(prefix: string, version: string)
    ensures var r := Release(prefix + (['v'] + version), true); Ours(r, prefix) && VersionOf(r, prefix) == version
    ensures (version == "" || version[0] != 'v') ==>
              var r := Release(prefix + version, true); Ours(r, prefix) && VersionOf(r, prefix) == version
    ensures !Ours(Release(prefix + version, false), prefix)
  {
    assert (prefix + (['v'] + version))[|prefix|..] == ['v'] + version && (['v'] + version)[1..] == version;
    assert (prefix + version)[|prefix|..] == version;
  }

  predicate Listed(rs: seq<Release>, prefix: string, c: Candidate) {
    exists r <- rs :: Ours(r, prefix) && c == Candidate(r.tag, VersionOf(r, prefix))
  }

  ghost predicate NoneNewer(rs: seq<Release>, prefix: string, version: string) {
    forall q <- rs :: Ours(q, prefix) ==> !IsNewer(VersionOf(q, prefix), version)
  }

  /** What the fold has found in the releases read so far. */
  ghost predicate Best(rs: seq<Release>, prefix: string, newest: Option<Candidate>) {
    match newest
    case None => forall q <- rs :: !Ours(q, prefix)
    case Some(c) => Listed(rs, prefix, c) && NoneNewer(rs, prefix, c.version)
  }

  lemma OneMoreRelease(rs: seq<Release>, q: Release, prefix: string, newest: Option<Candidate>)
    requires Best(rs, prefix, newest)
    ensures !Ours(q, prefix) ==> Best(rs + [q], prefix, newest)
    ensures Ours(q, prefix) ==>
      var version := VersionOf(q, prefix);
      if newest.None? || IsNewer(version, newest.value.version) then Best(rs + [q], prefix, Some(Candidate(q.tag, version)))
      else Best(rs + [q], prefix, newest)
  {
    hide IsNewer, Ours, VersionOf;
    assert q in rs + [q];
    if Ours(q, prefix) {
      var version := VersionOf(q, prefix);
      NewerIsAStrictOrder(version, version, version);
      if newest.Some? && IsNewer(version, newest.value.version) {
        forall o | o in rs && Ours(o, prefix) ensures !IsNewer(VersionOf(o, prefix), version) {
          NewerIsAStrictOrder(VersionOf(o, prefix), version, newest.value.version);
        }
      }
    }
  }

  /**
   * The fold keeps the first release and replaces it by each newer one. Whatever
   * the order of the list, nothing listed is newer than what is left.
   */
  method Newest(rs: seq<Release>, prefix: string) returns (r: Result<Option<Candidate>, string>)
    ensures r.Err? <==> exists q <- rs :: Ours(q, prefix) && !PathSegment(q.tag)
    ensures r.Ok? ==> (r.value.None? <==> forall q <- rs :: !Ours(q, prefix))
    ensures r.Ok? && r.value.Some? ==> Listed(rs, prefix, r.value.value)
    ensures r.Ok? && r.value.Some? ==>
      forall q <- rs :: Ours(q, prefix) ==> !IsNewer(VersionOf(q, prefix), r.value.value.version)
  {
    var newest: Option<Candidate> := None;
    hide IsNewer, PathSegment, Ours, VersionOf;
    for i := 0 to |rs|
      invariant forall q <- rs[..i] :: Ours(q, prefix) ==> PathSegment(q.tag)
      invariant Best(rs[..i], prefix, newest)
    {
      var release := rs[i];
      OneMoreRelease(rs[..i], release, prefix, newest);
      assert rs[..i + 1] == rs[..i] + [release];
      if !Ours(release, prefix) {
        continue;
      }
      if !PathSegment(release.tag) {
        return Err("unusable tag");
      }
      var version := VersionOf(release, prefix);
      var better := true;
      if newest.Some? {
        better := Newer(version, newest.value.version);
      }
      if better {
        newest := Some(Candidate(release.tag, version));
      }
    }
    assert rs[..|rs|] == rs;
    ListedIsThere(rs, prefix, newest);
    return Ok(newest);
  }

  lemma ListedIsThere(rs: seq<Release>, prefix: string, newest: Option<Candidate>)
    requires Best(rs, prefix, newest)
    ensures newest.None? <==> forall q <- rs :: !Ours(q, prefix)
  {
  }
}

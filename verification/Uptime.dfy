/** Uptimes as text: the web client's printer, and the two parsers of the router's notation. */
module Uptime {
  import opened Wrappers
  import opened Arithmetic

  // ---------- Numbers ----------

  predicate IsDigit(c: char) {
    '0' <= c <= '9'
  }

  function DigitValue(c: char): nat
    requires IsDigit(c)
  {
    c as int - '0' as int
  }

  function DigitChar(n: nat): (c: char)
    requires n < 10
    ensures IsDigit(c) && DigitValue(c) == n
  {
    (n + '0' as int) as char
  }

  /** A number as it is printed. */
  function Decimal(n: nat): (s: string)
    ensures |s| > 0 && forall i :: 0 <= i < |s| ==> IsDigit(s[i])
  {
    if n < 10 then [DigitChar(n)] else Decimal(n / 10) + [DigitChar(n % 10)]
  }

  /** The number digits stand for when read behind `start`. */
  function Value(start: nat, s: string): nat
    requires forall i :: 0 <= i < |s| ==> IsDigit(s[i])
  {
    if s == [] then start else Value(start, s[..|s| - 1]) * 10 + DigitValue(s[|s| - 1])
  }

  lemma {:induction false} ValueOfDecimal(start: nat, n: nat)
    ensures Value(start, Decimal(n)) == start * Pow10(|Decimal(n)|) + n
  {
    var s := Decimal(n);
    if n < 10 {
      assert s[..0] == [];
      assert Pow10(1) == 10 * Pow10(0);
    } else {
      ValueOfDecimal(start, n / 10);
      assert s[..|s| - 1] == Decimal(n / 10);
      Regroup(start, Pow10(|s| - 1));
    }
  }

  lemma Regroup(a: nat, p: nat)
    ensures a * (10 * p) == (a * p) * 10
  {
  }

  // ---------- Fields ----------

  /** A number with its unit. */
  datatype Field = Field(n: nat, unit: char)

  function Text(f: Field): string {
    Decimal(f.n) + [f.unit]
  }

  /** Fields one behind the other, with a separator between them. */
  function Joined(fields: seq<Field>, sep: string): string {
    if fields == [] then ""
    else if |fields| == 1 then Text(fields[0])
    else Text(fields[0]) + (sep + Joined(fields[1..], sep))
  }

  /** Seconds in a unit. */
  function Seconds(unit: char): nat {
    match unit
    case 'w' => 604800
    case 'd' => 86400
    case 'h' => 3600
    case 'm' => 60
    case 's' => 1
    case _ => 0
  }

  function Total(fields: seq<Field>): nat {
    if fields == [] then 0 else fields[0].n * Seconds(fields[0].unit) + Total(fields[1..])
  }

  /** Each unit at most once, and only these. */
  ghost predicate Canonical(fields: seq<Field>, units: set<char>) {
    && (forall i :: 0 <= i < |fields| ==> fields[i].unit in units)
    && (forall i, j :: 0 <= i < j < |fields| ==> fields[i].unit != fields[j].unit)
  }

  // ---------- formatUptime ----------

  function Nonzero(f: Field): seq<Field> {
    if f.n == 0 then [] else [f]
  }

  function Parts(seconds: nat): seq<Field> {
    Nonzero(Field(seconds / 86400, 'd')) + Nonzero(Field(seconds % 86400 / 3600, 'h'))
    + Nonzero(Field(seconds % 3600 / 60, 'm'))
  }

  const DASH: string := "\U{2014}"
  const UNDER_A_MINUTE: string := "< 1m"

  function Join(parts: seq<string>, sep: string): string {
    if parts == [] then "" else if |parts| == 1 then parts[0] else parts[0] + (sep + Join(parts[1..], sep))
  }

  function Texts(fields: seq<Field>): seq<string> {
    seq(|fields|, i requires 0 <= i < |fields| => Text(fields[i]))
  }

  /** The parts, case by case. */
  lemma FormattedCases(seconds: nat)
    ensures var d, h, m := seconds / 86400, seconds / 3600 % 24, seconds / 60 % 60;
            var text := Joined(Parts(seconds), " ");
            && (seconds < 60 <==> Parts(seconds) == [])
            && (d > 0 && h > 0 && m > 0 ==> text == Decimal(d) + "d " + Decimal(h) + "h " + Decimal(m) + "m")
            && (d > 0 && h > 0 && m == 0 ==> text == Decimal(d) + "d " + Decimal(h) + "h")
            && (d > 0 && h == 0 && m > 0 ==> text == Decimal(d) + "d " + Decimal(m) + "m")
            && (d > 0 && h == 0 && m == 0 ==> text == Decimal(d) + "d")
            && (d == 0 && h > 0 && m > 0 ==> text == Decimal(h) + "h " + Decimal(m) + "m")
            && (d == 0 && h > 0 && m == 0 ==> text == Decimal(h) + "h")
            && (d == 0 && h == 0 && m > 0 ==> text == Decimal(m) + "m")
  {
    var d, h, m := seconds / 86400, seconds / 3600 % 24, seconds / 60 % 60;
    PartsOf(seconds);
    PartsTotal(seconds);
    JoinedThree(Field(d, 'd'), Field(h, 'h'), Field(m, 'm'));
    ThreeNonzero(Field(d, 'd'), Field(h, 'h'), Field(m, 'm'));
    hide Parts, Joined, Decimal, Nonzero, Total;
  }

  lemma ThreeNonzero(d: Field, h: Field, m: Field)
    ensures Nonzero(d) + Nonzero(h) + Nonzero(m)
         == if d.n > 0 then (if h.n > 0 then (if m.n > 0 then [d, h, m] else [d, h])
                             else if m.n > 0 then [d, m] else [d])
            else if h.n > 0 then (if m.n > 0 then [h, m] else [h]) else if m.n > 0 then [m] else []
  {
  }

  lemma PartsOf(seconds: nat)
    ensures Parts(seconds) == Nonzero(Field(seconds / 86400, 'd')) + Nonzero(Field(seconds / 3600 % 24, 'h'))
                              + Nonzero(Field(seconds / 60 % 60, 'm'))
  {
    var d, r := seconds / 86400, seconds % 86400;
    var h, q := r / 3600, r % 3600;
    var m, e := q / 60, q % 60;
    Quotient(seconds, 3600, 24 * d + h, q);
    Quotient(24 * d + h, 24, d, h);
    Quotient(seconds, 60, 60 * (24 * d + h) + m, e);
    Quotient(60 * (24 * d + h) + m, 60, 24 * d + h, m);
  }

  lemma JoinedThree(d: Field, h: Field, m: Field)
    ensures Joined([d, h, m], " ")
         == Decimal(d.n) + [d.unit, ' '] + Decimal(h.n) + [h.unit, ' '] + Decimal(m.n) + [m.unit]
    ensures JoinedTwo(d, h) && JoinedTwo(d, m) && JoinedTwo(h, m)
    ensures Joined([d], " ") == Decimal(d.n) + [d.unit] && Joined([h], " ") == Decimal(h.n) + [h.unit]
    ensures Joined([m], " ") == Decimal(m.n) + [m.unit]
  {
    hide Decimal;
    TwoJoined(d, h);
    TwoJoined(d, m);
    TwoJoined(h, m);
    assert [d, h, m][1..] == [h, m];
    var front, back := Decimal(d.n), Decimal(h.n) + [h.unit, ' '] + Decimal(m.n) + [m.unit];
    assert front + [d.unit] + (" " + back)
        == front + [d.unit, ' '] + Decimal(h.n) + [h.unit, ' '] + Decimal(m.n) + [m.unit];
  }

  predicate JoinedTwo(a: Field, b: Field) {
    Joined([a, b], " ") == Decimal(a.n) + [a.unit, ' '] + Decimal(b.n) + [b.unit]
  }

  lemma TwoJoined(a: Field, b: Field)
    ensures JoinedTwo(a, b)
  {
    hide Decimal;
    assert [a, b][1..] == [b] && Joined([b], " ") == Decimal(b.n) + [b.unit];
    assert Joined([a, b], " ") == Decimal(a.n) + [a.unit] + (" " + (Decimal(b.n) + [b.unit]));
    assert Decimal(a.n) + [a.unit] + (" " + (Decimal(b.n) + [b.unit]))
        == Decimal(a.n) + [a.unit, ' '] + Decimal(b.n) + [b.unit];
  }

  method FormatUptime(seconds: nat) returns (s: string)
    ensures s == if seconds == 0 then DASH
                 else if Parts(seconds) == [] then UNDER_A_MINUTE
                 else Joined(Parts(seconds), " ")
    ensures var d, h, m := seconds / 86400, seconds / 3600 % 24, seconds / 60 % 60;
            && (seconds == 0 ==> s == "\U{2014}") && (0 < seconds < 60 ==> s == "< 1m")
            && (d > 0 && h > 0 && m > 0 ==> s == Decimal(d) + "d " + Decimal(h) + "h " + Decimal(m) + "m")
            && (d > 0 && h > 0 && m == 0 ==> s == Decimal(d) + "d " + Decimal(h) + "h")
            && (d > 0 && h == 0 && m > 0 ==> s == Decimal(d) + "d " + Decimal(m) + "m")
            && (d > 0 && h == 0 && m == 0 ==> s == Decimal(d) + "d")
            && (d == 0 && h > 0 && m > 0 ==> s == Decimal(h) + "h " + Decimal(m) + "m")
            && (d == 0 && h > 0 && m == 0 ==> s == Decimal(h) + "h")
            && (d == 0 && h == 0 && m > 0 ==> s == Decimal(m) + "m")
  {
    FormattedCases(seconds);
    if seconds == 0 { return DASH; }
    var d := seconds / 86400;
    var h := seconds % 86400 / 3600;
    var m := seconds % 3600 / 60;
    var parts: seq<string> := [];
    ghost var fields: seq<Field> := [];
    if d != 0 { parts := parts + [Decimal(d) + "d"]; fields := fields + [Field(d, 'd')]; }
    if h != 0 { parts := parts + [Decimal(h) + "h"]; fields := fields + [Field(h, 'h')]; }
    if m != 0 { parts := parts + [Decimal(m) + "m"]; fields := fields + [Field(m, 'm')]; }
    assert fields == Parts(seconds);
    assert parts == Texts(fields);
    JoinIsJoined(fields, " ");
    var joined := Join(parts, " ");
    if joined == "" { return UNDER_A_MINUTE; }
    return joined;
  }

  lemma {:induction false} JoinIsJoined(fields: seq<Field>, sep: string)
    ensures Join(Texts(fields), sep) == Joined(fields, sep)
    ensures fields != [] ==> Joined(fields, sep) != ""
  {
    if |fields| > 1 {
      assert Texts(fields)[1..] == Texts(fields[1..]);
      JoinIsJoined(fields[1..], sep);
    }
  }

  // ---------- parseUptimeToSeconds (Go) ----------

  const INT64: int := 0x1_0000_0000_0000_0000

  /** What is left of an integer in 64 bits, two's complement. */
  function Wrap(x: int): int {
    (x + INT64 / 2) % INT64 - INT64 / 2
  }

  /** Units Go knows; a week is not among them. */
  const GO_UNITS: set<char> := {'d', 'h', 'm', 's'}

  datatype Scan = Scan(total: int, num: int)

  function GoChar(st: Scan, c: char): Scan {
    if IsDigit(c) then st.(num := st.num * 10 + DigitValue(c))
    else if c in GO_UNITS then Scan(st.total + st.num * Seconds(c), 0)
    else st
  }

  /** The loop in unbounded integers. */
  function GoScan(st: Scan, s: string): Scan {
    if s == "" then st else GoChar(GoScan(st, s[..|s| - 1]), s[|s| - 1])
  }

  function GoTotal(s: string): int {
    GoScan(Scan(0, 0), s).total
  }

  /** With the source's int64: the unbounded total, wrapped once. */
  method ParseUptimeToSeconds(s: string) returns (total: int)
    ensures total == Wrap(GoTotal(s))
  {
    hide Wrap;
    WrapShift(0, 0);
    total := 0;
    var num := 0;
    for i := 0 to |s|
      invariant total == Wrap(GoScan(Scan(0, 0), s[..i]).total)
      invariant num == Wrap(GoScan(Scan(0, 0), s[..i]).num)
    {
      ghost var st := GoScan(Scan(0, 0), s[..i]);
      var ch := s[i];
      assert s[..i + 1][..i] == s[..i];
      WrapLinear(num, st.num, 10, if IsDigit(ch) then DigitValue(ch) else 0);
      WrapAfter(total, st.total, num, st.num, Seconds(ch));
      if IsDigit(ch) {
        num := Wrap(num * 10 + DigitValue(ch));
      } else if ch == 'd' {
        total := Wrap(total + Wrap(num * 86400));
        num := 0;
      } else if ch == 'h' {
        total := Wrap(total + Wrap(num * 3600));
        num := 0;
      } else if ch == 'm' {
        total := Wrap(total + Wrap(num * 60));
        num := 0;
      } else if ch == 's' {
        total := Wrap(total + num);
        num := 0;
      }
    }
    assert s[..|s|] == s;
  }

  /** Wrapping is reduction modulo 2^64. */
  lemma WrapShift(x: int, k: int)
    ensures Wrap(x + k * INT64) == Wrap(x)
    ensures exists q :: Wrap(x) == x + q * INT64
    ensures -INT64 / 2 <= x < INT64 / 2 ==> Wrap(x) == x
  {
    ModShift(x + INT64 / 2, k);
    var q := -((x + INT64 / 2) / INT64);
    assert Wrap(x) == x + q * INT64;
  }

  lemma ModShift(x: int, k: int)
    ensures (x + k * INT64) % INT64 == x % INT64
  {
    var q, r := x / INT64, x % INT64;
    assert x + k * INT64 == (q + k) * INT64 + r;
  }

  lemma WrapLinear(w: int, x: int, a: int, b: int)
    requires w == Wrap(x)
    ensures Wrap(w * a + b) == Wrap(x * a + b)
  {
    WrapShift(x, 0);
    var q :| w == x + q * INT64;
    assert w * a + b == (x * a + b) + (q * a) * INT64;
    WrapShift(x * a + b, q * a);
  }

  lemma WrapAfter(wt: int, t: int, wn: int, n: int, a: int)
    requires wt == Wrap(t) && wn == Wrap(n)
    ensures Wrap(wt + Wrap(wn * a)) == Wrap(t + n * a)
    ensures Wrap(wt + wn) == Wrap(t + n)
  {
    WrapLinear(wn, n, a, 0);
    WrapLinear(Wrap(n * a), n * a, 1, wt);
    WrapLinear(wt, t, 1, n * a);
    WrapLinear(wn, n, 1, wt);
    WrapLinear(wt, t, 1, n);
  }

  lemma {:induction false} GoScanConcat(st: Scan, a: string, b: string)
    ensures GoScan(st, a + b) == GoScan(GoScan(st, a), b)
    decreases |b|
  {
    if b == "" {
      assert a + b == a;
    } else {
      assert (a + b)[..|a + b| - 1] == a + b[..|b| - 1];
      GoScanConcat(st, a, b[..|b| - 1]);
    }
  }

  lemma {:induction false} GoScanDigits(st: Scan, s: string)
    requires st.num >= 0 && forall i :: 0 <= i < |s| ==> IsDigit(s[i])
    ensures GoScan(st, s) == st.(num := Value(st.num, s))
  {
    if s != "" { GoScanDigits(st, s[..|s| - 1]); }
  }

  lemma GoScanOne(st: Scan, c: char)
    ensures GoScan(st, [c]) == GoChar(st, c)
  {
    assert [c][..0] == "";
  }

  /** A field read with digits pending: they become leading digits of its number. */
  lemma GoScanField(st: Scan, f: Field)
    requires st.num >= 0 && !IsDigit(f.unit)
    ensures var n := st.num * Pow10(|Decimal(f.n)|) + f.n;
            GoScan(st, Text(f)) == if f.unit in GO_UNITS then Scan(st.total + n * Seconds(f.unit), 0) else st.(num := n)
  {
    GoScanConcat(st, Decimal(f.n), [f.unit]);
    GoScanDigits(st, Decimal(f.n));
    ValueOfDecimal(st.num, f.n);
    GoScanOne(GoScan(st, Decimal(f.n)), f.unit);
  }

  /** A separator the scan skips. */
  predicate Skipped(sep: string) {
    sep == "" || sep == " "
  }

  lemma GoScanSep(st: Scan, sep: string)
    requires Skipped(sep)
    ensures GoScan(st, sep) == st
  {
    if sep == " " { GoScanOne(st, ' '); }
  }

  lemma {:induction false} GoScanFields(st: Scan, fields: seq<Field>, sep: string)
    requires st.num == 0 && Skipped(sep) && forall i :: 0 <= i < |fields| ==> fields[i].unit in GO_UNITS
    ensures GoScan(st, Joined(fields, sep)) == Scan(st.total + Total(fields), 0)
    decreases |fields|
  {
    if fields != [] {
      GoScanField(st, fields[0]);
      var st' := GoScan(st, Text(fields[0]));
      if |fields| == 1 {
        assert Total(fields[1..]) == 0;
      } else {
        var rest := Joined(fields[1..], sep);
        GoScanConcat(st, Text(fields[0]), sep + rest);
        GoScanConcat(st', sep, rest);
        GoScanSep(st', sep);
        GoScanFields(st', fields[1..], sep);
      }
    }
  }

  /** What Go makes of a week in front of a number, and what it stands for. */
  function Merged(weeks: nat, k: nat, n: nat, unit: nat, others: nat): int {
    (weeks * Pow10(k) + n) * unit + others
  }

  function Right(weeks: nat, n: nat, unit: nat, others: nat): int {
    weeks * 604800 + (n * unit + others)
  }

  /**
   A week is not a unit to Go: its digits run into the next field's number, so that "1w2d" counts
   as twelve days; a trailing week counts nothing.
   */
  lemma GoMergesWeek(weeks: nat, next: Field, fields: seq<Field>)
    requires forall i :: 0 <= i < |fields| ==> fields[i].unit in GO_UNITS
    requires next.unit in GO_UNITS
    ensures GoTotal(Text(Field(weeks, 'w'))) == 0
    ensures GoTotal(Text(Field(weeks, 'w')) + (Text(next) + Joined(fields, "")))
         == Merged(weeks, |Decimal(next.n)|, next.n, Seconds(next.unit), Total(fields))
  {
    hide GoScan, Text, Joined, Decimal, Pow10;
    var week := Text(Field(weeks, 'w'));
    var pending := Scan(0, weeks);
    assert GoScan(Scan(0, 0), week) == pending by { WeekPends(weeks); }
    GoScanConcat(Scan(0, 0), week, Text(next) + Joined(fields, ""));
    GoScanConcat(pending, Text(next), Joined(fields, ""));
    GoScanField(pending, next);
    GoScanFields(GoScan(pending, Text(next)), fields, "");
  }

  /**
   When Go reads a text with a week field in front right, with its 64-bit arithmetic and for every
   total that fits it: exactly when there are no weeks to count. No overflow makes a wrong sum come
   out right.
   */
  lemma GoReadsWeekExactly(weeks: nat, next: Field, fields: seq<Field>)
    requires forall i :: 0 <= i < |fields| ==> fields[i].unit in GO_UNITS
    requires next.unit in GO_UNITS
    requires Total([Field(weeks, 'w')] + ([next] + fields)) < INT64 / 2
    ensures var week := Field(weeks, 'w');
            var text := Text(week) + (Text(next) + Joined(fields, ""));
            && (Wrap(GoTotal(Text(week))) == Total([week]) <==> weeks == 0)
            && (Wrap(GoTotal(text)) == Total([week] + ([next] + fields)) <==> weeks == 0)
  {
    var week := Field(weeks, 'w');
    GoUnitSeconds(next.unit);
    GoMergesWeek(weeks, next, fields);
    WeekSum(weeks, next, fields);
    hide *;
    WrapShift(0, 0);
    MergedWeight(weeks, |Decimal(next.n)|, next.n, Seconds(next.unit), Total(fields));
  }

  lemma WeekSum(weeks: nat, next: Field, fields: seq<Field>)
    ensures Total([Field(weeks, 'w')] + ([next] + fields))
         == Right(weeks, next.n, Seconds(next.unit), Total(fields))
    ensures Total([Field(weeks, 'w')]) == 0 <==> weeks == 0
  {
    var week := Field(weeks, 'w');
    TotalCons(next, fields);
    TotalCons(week, [next] + fields);
    TotalCons(week, []);
    assert [week] + [] == [week] && Seconds('w') == 604800 && Total([]) == 0;
    hide Total, Seconds;
  }

  lemma GoUnitSeconds(unit: char)
    requires unit in GO_UNITS
    ensures Seconds(unit) in {86400, 3600, 60, 1} && Seconds('w') == 604800
  {
  }

  lemma TotalCons(f: Field, fields: seq<Field>)
    ensures Total([f] + fields) == f.n * Seconds(f.unit) + Total(fields)
  {
    assert ([f] + fields)[1..] == fields;
  }

  lemma MergedWeight(weeks: nat, k: nat, n: nat, unit: nat, others: nat)
    requires k >= 1 && unit in {86400, 3600, 60, 1}
    requires Right(weeks, n, unit, others) < INT64 / 2
    ensures Wrap(Merged(weeks, k, n, unit, others)) == Right(weeks, n, unit, others) <==> weeks == 0
  {
    WeekNoMultiple(k, unit);
    var p := Pow10(k);
    var d := p * unit - 604800;
    var merged, right := Merged(weeks, k, n, unit, others), Right(weeks, n, unit, others);
    var shift := weeks * d;
    assert merged == right + shift by {
      Distribute(weeks * p, n, unit);
      Associate(weeks, p, unit);
      ProductDifference(weeks, p * unit, 604800);
    }
    assert weeks * 604800 <= right;
    ShiftedReads(weeks, d, shift, merged, right);
  }

  lemma ShiftedReads(weeks: nat, d: int, shift: int, merged: int, right: int)
    requires shift == weeks * d && merged == right + shift && d % 2048 != 0
    requires weeks * 604800 <= right < INT64 / 2
    ensures Wrap(merged) == right <==> weeks == 0
  {
    hide Wrap;
    WrapShift(right, 0);
    WrapShift(merged, 0);
    if Wrap(merged) == right {
      var q :| Wrap(merged) == merged + q * INT64;
      WeeksTooLarge(weeks, d, -q);
    }
  }

  lemma ProductDifference(a: int, b: int, c: int)
    ensures a * b == a * c + a * (b - c)
  {
  }

  /** If so many weeks shift the sum by whole multiples of 2^64, their seconds do not fit 63 bits. */
  lemma WeeksTooLarge(weeks: nat, d: int, q: int)
    requires weeks * d == q * INT64 && d % 2048 != 0 && weeks * 604800 < INT64 / 2
    ensures weeks == 0
  {
    Pow2Values();
    Pow2Sum(53, 11);
    hide Pow2;
    var r := PowerComesFrom(weeks, d, 53, 11, q);
    var p := Pow2(53);
    assert p == 0x20_0000_0000_0000;
    MultipleOutgrows(p, r);
  }

  /** The factor by which a week is misread is not a multiple of 2048, for any number of digits. */
  lemma WeekNoMultiple(k: nat, unit: nat)
    requires k >= 1 && unit in {86400, 3600, 60, 1}
    ensures (Pow10(k) * unit - 604800) % 2048 != 0
  {
    Pow10Values();
    hide Pow10;
    if k >= 8 {
      Pow10Sum(8, k - 8);
      var t := 39_0625 * Pow10(k - 8) * unit;
      assert Pow10(k) * unit == 256 * t by { ManyDigits(Pow10(k - 8), unit); }
      Quotient(256 * t - 604800, 256, t - 2363, 128);
      BeyondRest(256 * t - 604800);
    }
  }

  lemma ManyDigits(p: nat, unit: nat)
    ensures 1_0000_0000 * p * unit == 256 * (39_0625 * p * unit)
  {
  }

  lemma BeyondRest(n: int)
    requires n % 256 == 128
    ensures n % 2048 != 0
  {
  }

  lemma WeekPends(weeks: nat)
    ensures GoScan(Scan(0, 0), Text(Field(weeks, 'w'))) == Scan(0, weeks)
  {
    hide GoScan, Text, Decimal, Pow10;
    GoScanField(Scan(0, 0), Field(weeks, 'w'));
    assert 0 * Pow10(|Decimal(weeks)|) == 0;
  }

  // ---------- parseUptime (TypeScript) ----------

  /** How many digits `s` starts with. */
  function DigitRun(s: string): (n: nat)
    ensures n <= |s| && (forall i :: 0 <= i < n ==> IsDigit(s[i])) && (n < |s| ==> !IsDigit(s[n]))
  {
    if s == "" || !IsDigit(s[0]) then 0 else 1 + DigitRun(s[1..])
  }

  /** `s.match(/(\\d+)u/)`: the number of the leftmost digits that are followed by the unit. */
  function Match(s: string, unit: char): Option<nat> {
    if s == "" then None
    else
      var n := DigitRun(s);
      if n == 0 then Match(s[1..], unit)
      else if n < |s| && s[n] == unit then Some(Value(0, s[..n]))
      else Match(s[n..], unit)
  }

  /** A digit with the unit behind it. */
  predicate Hit(s: string, unit: char, j: nat) {
    0 < j < |s| && IsDigit(s[j - 1]) && s[j] == unit
  }

  /** The digits that end in front of `j`, as many as there are, start at `i`. */
  ghost predicate RunBefore(s: string, i: nat, j: nat) {
    && i < j <= |s| && (forall k :: i <= k < j ==> IsDigit(s[k]))
    && (i > 0 ==> !IsDigit(s[i - 1]))
  }

  /** What the search finds: all the digits in front of the first unit that has a digit in front of it. */
  lemma {:induction false} MatchMeans(s: string, unit: char, i: nat, j: nat)
    requires !IsDigit(unit)
    requires Hit(s, unit, j) && (forall k: nat :: k < j ==> !Hit(s, unit, k)) && RunBefore(s, i, j)
    ensures Match(s, unit) == Some(Value(0, s[i..j]))
    decreases |s|
  {
    HitPosition(s, unit, i, j);
    MatchStep(s, unit);
    hide Match, Value, Hit, RunBefore;
    var n := DigitRun(s);
    if n == 0 || n == |s| || s[n] != unit {
      var m := if n == 0 then 1 else n;
      HitsBehind(s, unit, m, i, j);
      MatchMeans(s[m..], unit, i - m, j - m);
    }
  }

  lemma MatchStep(s: string, unit: char)
    requires s != ""
    ensures var n := DigitRun(s);
            Match(s, unit) == if n == 0 then Match(s[1..], unit)
                              else if n < |s| && s[n] == unit then Some(Value(0, s[..n]))
                              else Match(s[n..], unit)
  {
  }

  /** The hit is right behind the leading digits, or its own digits start later. */
  lemma HitPosition(s: string, unit: char, i: nat, j: nat)
    requires !IsDigit(unit)
    requires Hit(s, unit, j) && (forall k: nat :: k < j ==> !Hit(s, unit, k)) && RunBefore(s, i, j)
    ensures s != "" && j < |s|
    ensures var n := DigitRun(s);
            if n > 0 && n < |s| && s[n] == unit then i == 0 && j == n && s[i..j] == s[..n]
            else i >= if n == 0 then 1 else n
  {
    var n := DigitRun(s);
    if n > 0 && n < |s| && s[n] == unit { assert Hit(s, unit, n); }
  }

  /** The same hit, seen without the characters in front of its digits. */
  lemma HitsBehind(s: string, unit: char, n: nat, i: nat, j: nat)
    requires n <= i && Hit(s, unit, j) && (forall k: nat :: k < j ==> !Hit(s, unit, k)) && RunBefore(s, i, j)
    ensures Hit(s[n..], unit, j - n) && (forall k: nat :: k < j - n ==> !Hit(s[n..], unit, k))
    ensures RunBefore(s[n..], i - n, j - n) && s[n..][i - n..j - n] == s[i..j]
  {
    forall k: nat | k < j - n ensures !Hit(s[n..], unit, k) {
      assert !Hit(s, unit, n + k);
    }
  }

  lemma {:induction false} MatchNothing(s: string, unit: char)
    requires !IsDigit(unit) && forall k: nat :: !Hit(s, unit, k)
    ensures Match(s, unit) == None
    decreases |s|
  {
    if s != "" {
      var n := DigitRun(s);
      assert !Hit(s, unit, n);
      var m := if n == 0 then 1 else n;
      forall k: nat ensures !Hit(s[m..], unit, k) { assert !Hit(s, unit, m + k); }
      MatchNothing(s[m..], unit);
    }
  }

  function OrZero(m: Option<nat>): nat {
    if m.Some? then m.value else 0
  }

  /** The sum over the five patterns; nothing when it is zero. */
  function TsTotal(s: string): Option<nat> {
    var total := OrZero(Match(s, 'w')) * 604800 + OrZero(Match(s, 'd')) * 86400 + OrZero(Match(s, 'h')) * 3600
                 + OrZero(Match(s, 'm')) * 60 + OrZero(Match(s, 's'));
    if total == 0 then None else Some(total)
  }

  method ParseUptime(uptime: string) returns (seconds: Option<nat>)
    ensures seconds == TsTotal(uptime)
  {
    if uptime == "" { return None; }
    var total := 0;
    var weeks := Match(uptime, 'w');
    var days := Match(uptime, 'd');
    var hours := Match(uptime, 'h');
    var mins := Match(uptime, 'm');
    var secs := Match(uptime, 's');
    if weeks.Some? { total := total + weeks.value * 604800; }
    if days.Some? { total := total + days.value * 86400; }
    if hours.Some? { total := total + hours.value * 3600; }
    if mins.Some? { total := total + mins.value * 60; }
    if secs.Some? { total := total + secs.value; }
    return if total == 0 then None else Some(total);
  }

  lemma {:induction false} DigitRunExact(s: string, rest: string)
    requires (forall i :: 0 <= i < |s| ==> IsDigit(s[i])) && (rest != "" ==> !IsDigit(rest[0]))
    ensures DigitRun(s + rest) == |s|
  {
    if s == "" {
      assert s + rest == rest;
    } else {
      assert (s + rest)[1..] == s[1..] + rest;
      DigitRunExact(s[1..], rest);
    }
  }

  lemma MatchField(f: Field, rest: string, unit: char)
    requires !IsDigit(f.unit)
    ensures Match(Text(f) + rest, unit) == if f.unit == unit then Some(f.n) else Match(rest, unit)
  {
    var digits := Decimal(f.n);
    var s := Text(f) + rest;
    var tail := [f.unit] + rest;
    assert s == digits + tail;
    DigitRunExact(digits, tail);
    assert s[..|digits|] == digits && s[|digits|..] == tail && s[|digits|] == f.unit;
    ValueOfDecimal(0, f.n);
    assert tail[1..] == rest && DigitRun(tail) == 0;
  }

  lemma MatchSep(sep: string, rest: string, unit: char)
    requires Skipped(sep)
    ensures Match(sep + rest, unit) == Match(rest, unit)
  {
    if sep == "" {
      assert sep + rest == rest;
    } else {
      assert (sep + rest)[0] == ' ' && (sep + rest)[1..] == rest;
    }
  }

  /** The number of the first field with the unit. */
  function First(fields: seq<Field>, unit: char): Option<nat> {
    if fields == [] then None else if fields[0].unit == unit then Some(fields[0].n) else First(fields[1..], unit)
  }

  lemma {:induction false} MatchFields(fields: seq<Field>, sep: string, unit: char)
    requires Skipped(sep) && forall i :: 0 <= i < |fields| ==> !IsDigit(fields[i].unit)
    ensures Match(Joined(fields, sep), unit) == First(fields, unit)
    decreases |fields|
  {
    if |fields| == 1 {
      MatchField(fields[0], "", unit);
      assert Text(fields[0]) + "" == Text(fields[0]);
      assert First(fields[1..], unit) == None;
    } else if |fields| > 1 {
      MatchField(fields[0], sep + Joined(fields[1..], sep), unit);
      MatchSep(sep, Joined(fields[1..], sep), unit);
      MatchFields(fields[1..], sep, unit);
    }
  }

  const UNITS: set<char> := {'w', 'd', 'h', 'm', 's'}

  function FirstTotal(fields: seq<Field>): nat {
    OrZero(First(fields, 'w')) * 604800 + OrZero(First(fields, 'd')) * 86400 + OrZero(First(fields, 'h')) * 3600
    + OrZero(First(fields, 'm')) * 60 + OrZero(First(fields, 's'))
  }

  lemma {:induction false} FirstAbsent(fields: seq<Field>, unit: char)
    requires forall i :: 0 <= i < |fields| ==> fields[i].unit != unit
    ensures First(fields, unit) == None
  {
    if fields != [] { FirstAbsent(fields[1..], unit); }
  }

  lemma {:induction false} FirstIsTotal(fields: seq<Field>)
    requires Canonical(fields, UNITS)
    ensures FirstTotal(fields) == Total(fields)
  {
    if fields != [] {
      FirstIsTotal(fields[1..]);
      FirstAbsent(fields[1..], fields[0].unit);
    }
  }

  /** TypeScript reads every canonical text right, weeks included. */
  lemma TsReadsCanonical(fields: seq<Field>, sep: string)
    requires Canonical(fields, UNITS) && Skipped(sep)
    ensures TsTotal(Joined(fields, sep)) == if Total(fields) == 0 then None else Some(Total(fields))
  {
    MatchFields(fields, sep, 'w');
    MatchFields(fields, sep, 'd');
    MatchFields(fields, sep, 'h');
    MatchFields(fields, sep, 'm');
    MatchFields(fields, sep, 's');
    FirstIsTotal(fields);
  }

  // ---------- Agreement and round trip ----------

  /** Without weeks, and while the total fits 64 bits, the two parsers agree on every canonical text. */
  lemma ParsersAgree(fields: seq<Field>, sep: string)
    requires Canonical(fields, GO_UNITS) && Skipped(sep) && 0 < Total(fields) < INT64 / 2
    ensures TsTotal(Joined(fields, sep)) == Some(Total(fields))
    ensures Wrap(GoTotal(Joined(fields, sep))) == Total(fields)
  {
    TsReadsCanonical(fields, sep);
    GoScanFields(Scan(0, 0), fields, sep);
    WrapShift(Total(fields), 0);
  }

  function Formatted(seconds: nat): string {
    if seconds == 0 then DASH
    else if Parts(seconds) == [] then UNDER_A_MINUTE
    else Joined(Parts(seconds), " ")
  }

  /** The parts are days, hours and minutes of the whole minutes. */
  lemma PartsTotal(seconds: nat)
    ensures Canonical(Parts(seconds), GO_UNITS) && Total(Parts(seconds)) == seconds / 60 * 60
    ensures Parts(seconds) == [] <==> seconds < 60
  {
    var d, h, m := Field(seconds / 86400, 'd'), Field(seconds % 86400 / 3600, 'h'), Field(seconds % 3600 / 60, 'm');
    TotalConcat(Nonzero(d) + Nonzero(h), Nonzero(m));
    TotalConcat(Nonzero(d), Nonzero(h));
    NonzeroTotal(d);
    NonzeroTotal(h);
    NonzeroTotal(m);
    WholeMinutes(seconds);
  }

  lemma NonzeroTotal(f: Field)
    ensures Total(Nonzero(f)) == f.n * Seconds(f.unit)
  {
    assert f.n != 0 ==> Nonzero(f)[1..] == [];
  }

  lemma {:induction false} TotalConcat(a: seq<Field>, b: seq<Field>)
    ensures Total(a + b) == Total(a) + Total(b)
  {
    if a == [] {
      assert a + b == b;
    } else {
      assert (a + b)[1..] == a[1..] + b;
      TotalConcat(a[1..], b);
    }
  }

  lemma WholeMinutes(s: nat)
    ensures s / 86400 * 86400 + s % 86400 / 3600 * 3600 + s % 3600 / 60 * 60 == s / 60 * 60
    ensures s / 86400 == 0 && s % 86400 / 3600 == 0 && s % 3600 / 60 == 0 <==> s < 60
  {
    var d, r := s / 86400, s % 86400;
    var h, q := r / 3600, r % 3600;
    var m, e := q / 60, q % 60;
    WithinHour(24 * d + h, q);
    WithinMinute(1440 * d + 60 * h + m, e);
    assert s == 3600 * (24 * d + h) + q == 60 * (1440 * d + 60 * h + m) + e;
  }

  lemma WithinHour(a: nat, q: nat)
    requires q < 3600
    ensures (3600 * a + q) % 3600 == q
  {
  }

  lemma WithinMinute(a: nat, e: nat)
    requires e < 60
    ensures (60 * a + e) / 60 == a
  {
  }

  lemma UnderAMinuteReads()
    ensures TsTotal(UNDER_A_MINUTE) == Some(60) && GoTotal(UNDER_A_MINUTE) == 60
  {
    var f := Field(1, 'm');
    assert UNDER_A_MINUTE == "< " + Text(f);
    assert Text(f) + "" == Text(f);
    forall u: char ensures Match(UNDER_A_MINUTE, u) == First([f], u) {
      assert UNDER_A_MINUTE[1..] == " " + Text(f) && (" " + Text(f))[1..] == Text(f);
      MatchField(f, "", u);
      assert [f][1..] == [];
    }
    GoScanConcat(Scan(0, 0), "< ", Text(f));
    GoScanConcat(Scan(0, 0), "<", " ");
    assert "<" + " " == "< ";
    GoScanOne(Scan(0, 0), '<');
    GoScanOne(Scan(0, 0), ' ');
    GoScanField(Scan(0, 0), f);
    assert 0 * Pow10(|Decimal(1)|) == 0;
  }

  lemma DashReads()
    ensures TsTotal(DASH) == None && GoTotal(DASH) == 0
  {
    assert |DASH| == 1 && !IsDigit(DASH[0]) && DASH[1..] == "";
    GoScanOne(Scan(0, 0), DASH[0]);
    assert DASH == [DASH[0]];
  }

  /**
   Both parsers take the printed uptime back to its whole minutes from one minute on, and only
   then (Go also for zero): below a minute the printed "< 1m" reads back as sixty seconds.
   */
  lemma UptimeRoundTrip(seconds: nat)
    requires seconds < INT64 / 2
    ensures TsTotal(Formatted(seconds)) == Some(seconds / 60 * 60) <==> seconds >= 60
    ensures Wrap(GoTotal(Formatted(seconds))) == seconds / 60 * 60 <==> seconds >= 60 || seconds == 0
  {
    hide Parts, Joined, Total, TsTotal, GoTotal;
    PartsTotal(seconds);
    WrapShift(60, 0);
    WrapShift(0, 0);
    if seconds >= 60 {
      ParsersAgree(Parts(seconds), " ");
    } else {
      UnderAMinuteReads();
      DashReads();
    }
  }
}

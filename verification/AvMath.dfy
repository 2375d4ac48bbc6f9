/** The arithmetic helpers of libavutil that the timestamp code relies on, over unbounded integers. */
module AvMath {

  /** An optional timestamp; `NoPts` stands for AV_NOPTS_VALUE. */
  datatype Ts = NoPts | At(v: int)

  datatype Rational = Rational(num: int, den: int)

  /** A time base: both parts positive. */
  type TimeBase = r: Rational | r.num > 0 && r.den > 0 witness Rational(1, 1)

  /** Microseconds, AV_TIME_BASE_Q. */
  const AV_TIME_BASE: int := 1000000
  const MICROSECONDS: TimeBase := Rational(1, 1000000)

  function Min(a: int, b: int): int { if a < b then a else b }

  function Max(a: int, b: int): int { if a > b then a else b }

  function Abs(a: int): int { if a < 0 then -a else a }

  /** av_clip64: the bounds are tried lower one first. */
  function Clip(a: int, lo: int, hi: int): int {
    if a < lo then lo else if a > hi then hi else a
  }

  /** a*b/c rounded to nearest, halves away from zero. */
  function Rescale(a: int, b: nat, c: int): int
    requires c > 0
  {
    if a < 0 then -((-a * b + c / 2) / c) else (a * b + c / 2) / c
  }

  function RescaleDown(a: int, b: nat, c: int): int
    requires c > 0
  {
    a * b / c
  }

  function RescaleUp(a: int, b: nat, c: int): int
    requires c > 0
  {
    -((-a * b) / c)
  }

  /** A product of positive factors, with its sign in the contract. */
  function Mul(a: int, b: int): (r: int)
    ensures a > 0 && b > 0 ==> r > 0
  {
    a * b
  }

  function RescaleQ(a: int, from: TimeBase, to: TimeBase): int {
    Rescale(a, Mul(from.num, to.den), Mul(to.num, from.den))
  }

  function RescaleQDown(a: int, from: TimeBase, to: TimeBase): int {
    RescaleDown(a, Mul(from.num, to.den), Mul(to.num, from.den))
  }

  function RescaleQUp(a: int, from: TimeBase, to: TimeBase): int {
    RescaleUp(a, Mul(from.num, to.den), Mul(to.num, from.den))
  }

  function RescaleTs(t: Ts, from: TimeBase, to: TimeBase): Ts {
    match t
    case NoPts => NoPts
    case At(v) => At(RescaleQ(v, from, to))
  }

  /** av_compare_ts: the sign of a*ta - b*tb. */
  function CompareTs(a: int, ta: TimeBase, b: int, tb: TimeBase): int {
    var x, y := a * Mul(ta.num, tb.den), b * Mul(tb.num, ta.den);
    if x < y then -1 else if x > y then 1 else 0
  }

  /** av_rescale_delta: the rescaled timestamp and the new value of the carried `last`. */
  function RescaleDelta(inTb: TimeBase, ts: int, fsTb: TimeBase, duration: nat, last: Ts, outTb: TimeBase): (int, Ts) {
    var simple := (RescaleQ(ts, inTb, outTb), At(RescaleQ(ts, inTb, fsTb) + duration));
    if last.NoPts? || duration == 0 || Mul(inTb.num, outTb.den) <= Mul(outTb.num, inTb.den) then simple
    else
      var a := RescaleQDown(2 * ts - 1, inTb, fsTb) / 2;
      var b := (RescaleQUp(2 * ts + 1, inTb, fsTb) + 1) / 2;
      if last.v < 2 * a - b || last.v > 2 * b - a then simple
      else
        var this_ := Clip(last.v, a, b);
        (RescaleQ(this_, fsTb, outTb), At(this_ + duration))
  }

  lemma DivUnique(x: int, c: int, d: int, m: int, q: int, r: int)
    requires 0 <= m < c && 0 <= r < c
    requires x == d * c + m == q * c + r
    ensures d == q
  {
    if d < q { MulAtLeast(q - d, c); }
    if q < d { MulAtLeast(d - q, c); }
  }

  lemma MulAtLeast(k: int, c: int)
    requires k >= 1 && c > 0
    ensures k * c >= c
  {
  }

  lemma DivExact(q: int, c: int, r: int)
    requires 0 <= r < c
    ensures (q * c + r) / c == q
  {
    var x := q * c + r;
    DivUnique(x, c, x / c, x % c, q, r);
  }

  /** A rescaling whose exact value is an integer returns it. */
  lemma RescaleExact(a: int, b: nat, c: int, q: int)
    requires c > 0 && a * b == q * c
    ensures Rescale(a, b, c) == q
  {
    if a < 0 {
      assert -a * b == -q * c;
      DivExact(-q, c, c / 2);
    } else {
      DivExact(q, c, c / 2);
    }
  }

  /** Rescaling lands within half a unit of the exact value. */
  lemma RescaleNearest(a: int, b: nat, c: int)
    requires c > 0
    ensures 2 * a * b - c <= 2 * Rescale(a, b, c) * c <= 2 * a * b + c
  {
    var n := if a < 0 then -a * b else a * b;
    var q := (n + c / 2) / c;
    NearestQuotient(n, c, q);
    SignedRescale(a, b, c, q);
  }

  /** Rescaling by sign, with the products of its error bound. */
  lemma SignedRescale(a: int, b: nat, c: int, q: int)
    requires c > 0 && q == ((if a < 0 then -a * b else a * b) + c / 2) / c
    ensures a < 0 ==> Rescale(a, b, c) == -q && 2 * Rescale(a, b, c) * c == -(2 * q * c) && 2 * a * b == -(2 * (-a * b))
    ensures a >= 0 ==> Rescale(a, b, c) == q && 2 * a * b == 2 * (a * b)
  {
    TwiceMinus(q, c);
    TwiceMinus(a, b);
  }

  lemma TwiceMinus(x: int, y: int)
    ensures 2 * (-x) * y == -(2 * x * y) && 2 * x * y == 2 * (x * y) && -x * y == -(x * y)
  {
  }

  lemma NearestQuotient(n: int, c: int, q: int)
    requires c > 0 && q == (n + c / 2) / c
    ensures 2 * n - c <= 2 * q * c <= 2 * n + c
  {
    assert n + c / 2 == q * c + (n + c / 2) % c;
    assert 2 * q * c == 2 * (q * c);
  }


  /** Equal time bases make rescaling the identity. */
  lemma RescaleIdentity(a: int, tb: TimeBase)
    ensures RescaleQ(a, tb, tb) == a
  {
    RescaleExact(a, Mul(tb.num, tb.den), Mul(tb.num, tb.den), a);
  }

  /** Equal time bases make av_rescale_delta the identity, whatever `last` holds. */
  lemma RescaleDeltaIdentity(tb: TimeBase, ts: int, fsTb: TimeBase, duration: nat, last: Ts)
    ensures RescaleDelta(tb, ts, fsTb, duration, last, tb).0 == ts
  {
    RescaleIdentity(ts, tb);
  }

  /** On one time base av_compare_ts compares the integers. */
  lemma CompareSameBase(a: int, b: int, tb: TimeBase)
    ensures CompareTs(a, tb, b, tb) < 0 <==> a < b
    ensures CompareTs(a, tb, b, tb) > 0 <==> a > b
  {
    var m := Mul(tb.num, tb.den);
    if a < b { MulStrict(a, b, m); }
    if b < a { MulStrict(b, a, m); }
  }

  lemma MulStrict(a: int, b: int, m: int)
    requires a < b && m > 0
    ensures a * m < b * m
  {
    assert (b - a) * m > 0;
  }

  // ---------- what the helpers mean ----------

  /** Halves are rounded away from zero. */
  lemma RescaleTies(a: int, b: nat, c: int)
    requires c > 0
    ensures a >= 0 ==> 2 * a * b - c < 2 * Rescale(a, b, c) * c
    ensures a <= 0 ==> 2 * Rescale(a, b, c) * c < 2 * a * b + c
  {
    var n := if a < 0 then -a * b else a * b;
    var q := (n + c / 2) / c;
    TieQuotient(n, c, q);
    SignedRescale(a, b, c, q);
    if a == 0 { TieZero(c, q); }
  }

  lemma TieQuotient(n: int, c: int, q: int)
    requires c > 0 && q == (n + c / 2) / c
    ensures 2 * n - c < 2 * q * c
  {
    assert n + c / 2 == q * c + (n + c / 2) % c;
    assert 2 * q * c == 2 * (q * c);
  }

  lemma TieZero(c: int, q: int)
    requires c > 0 && q == (0 + c / 2) / c
    ensures q == 0
  {
    DivUnique(c / 2, c, q, c / 2 % c, 0, c / 2);
  }

  /** Rounding down and up bracket the exact value within one unit. */
  lemma RescaleBrackets(a: int, b: nat, c: int)
    requires c > 0
    ensures RescaleDown(a, b, c) * c <= a * b < RescaleDown(a, b, c) * c + c
    ensures RescaleUp(a, b, c) * c - c < a * b <= RescaleUp(a, b, c) * c
  {
    assert a * b == a * b / c * c + a * b % c;
    var m := -a * b;
    assert m == m / c * c + m % c && m == -(a * b);
    assert RescaleUp(a, b, c) * c == -(m / c * c);
  }

  /** Comparing timestamps compares the times they stand for. */
  lemma CompareIs(a: int, ta: TimeBase, b: int, tb: TimeBase)
    ensures CompareTs(a, ta, b, tb) < 0 <==> a * ta.num * tb.den < b * tb.num * ta.den
    ensures CompareTs(a, ta, b, tb) > 0 <==> a * ta.num * tb.den > b * tb.num * ta.den
  {
    assert a * Mul(ta.num, tb.den) == a * ta.num * tb.den && b * Mul(tb.num, ta.den) == b * tb.num * ta.den;
  }

  /** Clipping to a range leaves what lies in it and otherwise takes the nearer end. */
  lemma ClipIs(a: int, lo: int, hi: int)
    requires lo <= hi
    ensures lo <= Clip(a, lo, hi) <= hi && (lo <= a <= hi ==> Clip(a, lo, hi) == a)
    ensures (a < lo ==> Clip(a, lo, hi) == lo) && (a > hi ==> Clip(a, lo, hi) == hi)
  {
  }

  /** The positions half a tick before and behind a timestamp, rounded outwards, in halves of the new unit. */
  lemma HalfBrackets(ts: int, up: int, down: int)
    requires up > 0 && down > 0
    ensures var a := RescaleDown(2 * ts - 1, up, down) / 2;
            2 * a * down <= 2 * (ts * up) - up < 2 * a * down + 2 * down
    ensures var b := (RescaleUp(2 * ts + 1, up, down) + 1) / 2;
            2 * b * down - 2 * down < 2 * (ts * up) + up <= 2 * b * down
  {
    var x, y := RescaleDown(2 * ts - 1, up, down), RescaleUp(2 * ts + 1, up, down);
    RescaleBrackets(2 * ts - 1, up, down);
    RescaleBrackets(2 * ts + 1, up, down);
    TwicePlus(ts, up);
    hide RescaleDown, RescaleUp;
    HalveDown(x, x / 2, down);
    HalveUp(y, (y + 1) / 2, down);
  }

  lemma TwicePlus(ts: int, up: int)
    ensures (2 * ts - 1) * up == 2 * (ts * up) - up && (2 * ts + 1) * up == 2 * (ts * up) + up
  {
  }

  lemma HalveDown(x: int, a: int, down: int)
    requires down > 0 && a == x / 2
    ensures x * down - down <= 2 * a * down <= x * down
  {
    assert x == 2 * a || x == 2 * a + 1;
    assert (2 * a + 1) * down == 2 * a * down + down;
  }

  lemma HalveUp(y: int, b: int, down: int)
    requires down > 0 && b == (y + 1) / 2
    ensures y * down <= 2 * b * down <= y * down + down
  {
    assert y == 2 * b || y == 2 * b - 1;
    assert (2 * b - 1) * down == 2 * b * down - down;
  }

  /** A position in samples within half a tick and a sample of the timestamp. */
  predicate Close(pos: int, ts: int, up: int, down: int) { 2 * Abs(pos * down - ts * up) <= up + 2 * down }

  /** A position in samples within half a tick of the timestamp. */
  predicate Within(pos: int, ts: int, up: int, down: int) { 2 * Abs(pos * down - ts * up) <= up }

  lemma SimpleIsClose(ts: int, up: nat, down: int)
    requires up > 0 && down > 0
    ensures Close(Rescale(ts, up, down), ts, up, down)
  {
    RescaleNearest(ts, up, down);
    var q := Rescale(ts, up, down);
    assert 2 * q * down == 2 * (q * down) && 2 * ts * up == 2 * (ts * up);
  }

  lemma CarriedIsClose(a: int, pos: int, b: int, ts: int, up: int, down: int)
    requires down > 0 && up > 0 && a <= pos <= b
    requires 2 * a * down <= 2 * (ts * up) - up < 2 * a * down + 2 * down
    requires 2 * b * down - 2 * down < 2 * (ts * up) + up <= 2 * b * down
    ensures Close(pos, ts, up, down)
  {
    Between(a, pos, b, down);
    assert 2 * a * down == 2 * (a * down) && 2 * b * down == 2 * (b * down);
  }

  /**
   * The delta conversion: the position in samples it stands for is within half a tick and a sample of the timestamp,
   * it is the carried position when that lies within half a tick, and what is returned is that position rescaled, or
   * the timestamp itself where nothing is carried.
   */
  lemma DeltaIs(inTb: TimeBase, ts: int, fsTb: TimeBase, duration: nat, last: Ts, outTb: TimeBase)
    ensures var (r, next) := RescaleDelta(inTb, ts, fsTb, duration, last, outTb);
            && next.At?
            && var pos, up, down := next.v - duration, Mul(inTb.num, fsTb.den), Mul(fsTb.num, inTb.den);
               && Close(pos, ts, up, down)
               && (r == RescaleQ(pos, fsTb, outTb) || r == RescaleQ(ts, inTb, outTb))
               && (last.NoPts? || duration == 0 ==> r == RescaleQ(ts, inTb, outTb))
               && (last.At? && duration > 0 && Mul(inTb.num, outTb.den) > Mul(outTb.num, inTb.den) ==>
                     Within(last.v, ts, up, down) ==> pos == last.v && r == RescaleQ(last.v, fsTb, outTb))
  {
    var up, down := Mul(inTb.num, fsTb.den), Mul(fsTb.num, inTb.den);
    var a := RescaleQDown(2 * ts - 1, inTb, fsTb) / 2;
    var b := (RescaleQUp(2 * ts + 1, inTb, fsTb) + 1) / 2;
    SimpleIsClose(ts, up, down);
    HalfBrackets(ts, up, down);
    assert a == RescaleDown(2 * ts - 1, up, down) / 2 && b == (RescaleUp(2 * ts + 1, up, down) + 1) / 2;
    hide Rescale, RescaleDown, RescaleUp, Close, Within, Mul;
    Ordered(a, b, down);
    if last.At? {
      ClipIs(last.v, a, b);
      CarriedIsClose(a, Clip(last.v, a, b), b, ts, up, down);
      CarriedIsKept(a, b, last.v, ts, up, down);
    }
  }

  lemma Ordered(a: int, b: int, down: int)
    requires down > 0 && 2 * a * down <= 2 * b * down
    ensures a <= b
  {
    if a > b { MulStrict(b, a, down); }
  }

  lemma Between(a: int, x: int, b: int, down: int)
    requires down > 0 && a <= x <= b
    ensures a * down <= x * down <= b * down
  {
    assert (x - a) * down >= 0 && (b - x) * down >= 0;
  }

  lemma CarriedIsKept(a: int, b: int, last: int, ts: int, up: int, down: int)
    requires down > 0 && up > 0 && a <= b
    requires 2 * a * down <= 2 * (ts * up) - up && 2 * (ts * up) + up <= 2 * b * down
    ensures Within(last, ts, up, down) ==> a <= last <= b && 2 * a - b <= last <= 2 * b - a
  {
    if Within(last, ts, up, down) {
      assert 2 * last * down == 2 * (last * down);
      Ordered(a, last, down);
      Ordered(last, b, down);
    }
  }
}

/** The stored sorted-set value of a score (pkg/engine/score.go). Scores are reals; a firstToReach
    board packs (score, whole seconds since the epoch) into one integer below 2^53. */
module Codec {
  import opened Basics
  import opened Boards

  function Pow2(n: nat): (r: nat)
    ensures r > 0
  {
    if n == 0 then 1 else 2 * Pow2(n - 1)
  }

  const TWO53: int := 0x20_0000_0000_0000
  const TWO63: int := 0x8000_0000_0000_0000
  const TWO64: int := 0x1_0000_0000_0000_0000

  /** What amd64 returns when a float outside the int64 range is converted. */
  const AMD64_OVERFLOW: int := -TWO63

  /** time.Duration holds nanoseconds in an int64: differences saturate at this many whole seconds. */
  const MAX_DURATION: int := 9223372036

  function SinceEpoch(t: Instant, epoch: Instant): int {
    var d := t - epoch;
    if d > MAX_DURATION then MAX_DURATION else if d < -MAX_DURATION then -MAX_DURATION else d
  }

  function Wrap64(x: int): int {
    var r := x % TWO64;
    if r >= TWO63 then r - TWO64 else r
  }

  predicate Integral(x: real) { x == x.Floor as real }

  function ToInt64(x: real, overflow: int): int {
    if x < -(TWO63 as real) || x >= TWO63 as real then overflow
    else if x >= 0.0 then x.Floor else -((-x).Floor)
  }

  function TimeBits(c: Config): (n: nat)
    requires c.scoreBits <= 53
  {
    53 - c.scoreBits
  }

  /** encode on a machine that converts out-of-range floats to `overflow`. The two halves of the
      composite occupy disjoint bits, so the bitwise or of the code is a sum. */
  function EncodeOn(cfg: Config, score: real, t: Instant, overflow: int): Option<real>
    requires ValidConfig(cfg)
  {
    var c := WithDefaults(cfg);
    if !c.tie.FirstToReach? then Some(score)
    else if score < 0.0 || !Integral(score) then None
    else
      var p := ToInt64(score, overflow);
      var maxTime := Pow2(TimeBits(c)) - 1;
      var ts := SinceEpoch(t, c.epoch);
      if p > Pow2(c.scoreBits) - 1 then None
      else if ts < 0 || ts > maxTime then None
      else
        var timeComp := if c.order.Asc? then ts else maxTime - ts;
        Some((Wrap64(p * Pow2(TimeBits(c))) + timeComp) as real)
  }

  function Encode(cfg: Config, score: real, t: Instant): Option<real>
    requires ValidConfig(cfg)
  {
    EncodeOn(cfg, score, t, AMD64_OVERFLOW)
  }

  function Decode(cfg: Config, stored: real): real {
    var c := WithDefaults(cfg);
    if !c.tie.FirstToReach? then stored
    else if c.scoreBits > 53 then (if stored < 0.0 then -1.0 else 0.0)
    else (ToInt64(stored, AMD64_OVERFLOW) / Pow2(TimeBits(c))) as real
  }

  // ---------------------------------------------------------------- arithmetic

  lemma {:induction false} Pow2Add(a: nat, b: nat)
    ensures Pow2(a) * Pow2(b) == Pow2(a + b)
  {
    if a > 0 {
      Pow2Add(a - 1, b);
    }
  }

  lemma Pow2Values()
    ensures Pow2(53) == TWO53
  {
    Pow2Small();
    Pow2Add(8, 8);
    Pow2Add(16, 16);
    Pow2Add(32, 16);
    Pow2Add(48, 5);
  }

  lemma Pow2Small()
    ensures Pow2(5) == 32 && Pow2(8) == 256
  {
    assert Pow2(2) == 4;
    assert Pow2(4) == 16;
    assert Pow2(6) == 64;
  }

  lemma {:induction false} StepMul(m: int, p: int, q: int)
    requires m > 0 && p < q
    ensures p * m + m <= q * m
    decreases q - p
  {
    if q > p + 1 {
      StepMul(m, p, q - 1);
    }
    assert q * m == (q - 1) * m + m;
  }

  lemma PackOrder(m: int, p: int, a: int, q: int, b: int)
    requires m > 0 && 0 <= a < m && 0 <= b < m
    ensures p * m + a < q * m + b <==> p < q || (p == q && a < b)
  {
    if p < q {
      StepMul(m, p, q);
    } else if q < p {
      StepMul(m, q, p);
    }
  }

  lemma Unpack(m: int, p: int, a: int)
    requires m > 0 && 0 <= a < m
    ensures (p * m + a) / m == p
  {
    var x := p * m + a;
    assert x == (x / m) * m + x % m;
    PackOrder(m, p, a, x / m, x % m);
    PackOrder(m, x / m, x % m, p, a);
  }

  // ---------------------------------------------------------------- the codec laws

  /** 53 mantissa bits, 63 and 64 integer bits, and the whole seconds in 63 bits of nanoseconds. */
  lemma Widths()
    ensures TWO53 == Pow2(53) && TWO63 == 1024 * TWO53 && TWO64 == 2 * TWO63 && Pow2(10) == 1024
    ensures MAX_DURATION * 1000000000 < TWO63 <= (MAX_DURATION + 1) * 1000000000
  {
    Pow2Values();
    Pow2Small();
    Pow2Add(8, 2);
    assert Pow2(2) == 4;
  }

  /** The seconds since the epoch, up to the largest duration either way. */
  lemma Elapsed(t: Instant, epoch: Instant)
    ensures -9223372036 <= t - epoch <= 9223372036 ==> SinceEpoch(t, epoch) == t - epoch
    ensures t - epoch > 9223372036 ==> SinceEpoch(t, epoch) == 9223372036
    ensures t - epoch < 0 ==> SinceEpoch(t, epoch) < 0
  {
  }

  /** The integer pair a firstToReach value packs. */
  function Packed(cfg: Config, score: real, t: Instant): int
    requires ValidConfig(cfg) && WithDefaults(cfg).tie.FirstToReach?
  {
    var c := WithDefaults(cfg);
    var ts := SinceEpoch(t, c.epoch);
    score.Floor * Pow2(TimeBits(c)) + (if c.order.Asc? then ts else Pow2(TimeBits(c)) - 1 - ts)
  }

  lemma PackBound(bits: nat, timeBits: nat, p: int, a: int)
    requires bits + timeBits == 53 && 0 <= p < Pow2(bits) && 0 <= a < Pow2(timeBits)
    ensures 0 <= p * Pow2(timeBits) + a < TWO53 && Wrap64(p * Pow2(timeBits)) == p * Pow2(timeBits)
  {
    var m := Pow2(timeBits);
    assert Pow2(bits) * m == TWO53 by {
      Pow2Add(bits, timeBits);
      Pow2Values();
    }
    StepMul(m, p, Pow2(bits));
    StepMul(m, -1, p);
    WrapSmall(p * m);
  }

  lemma WrapSmall(x: int)
    requires 0 <= x < TWO63
    ensures Wrap64(x) == x
  {
  }

  /** encode accepts exactly the scores and times that fit, and then stores an integer in [0, 2^53). */
  lemma EncodeFits(cfg: Config, score: real, t: Instant, overflow: int)
    requires ValidConfig(cfg) && WithDefaults(cfg).tie.FirstToReach? && score < TWO63 as real
    ensures var c := WithDefaults(cfg);
            var ts := SinceEpoch(t, c.epoch);
            var r := EncodeOn(cfg, score, t, overflow);
            && (r.Some? <==> 0.0 <= score < Pow2(c.scoreBits) as real && Integral(score)
                             && 0 <= ts < Pow2(TimeBits(c)))
            && (r.Some? ==> r.value == Packed(cfg, score, t) as real && 0 <= Packed(cfg, score, t) < TWO53)
  {
    var c := WithDefaults(cfg);
    var r := EncodeOn(cfg, score, t, overflow);
    if r.Some? {
      var ts := SinceEpoch(t, c.epoch);
      var m := Pow2(TimeBits(c));
      PackBound(c.scoreBits, TimeBits(c), score.Floor, if c.order.Asc? then ts else m - 1 - ts);
    }
  }

  /** decode recovers the score from an accepted encoding, on every board. */
  lemma DecodeEncode(cfg: Config, score: real, t: Instant)
    requires ValidConfig(cfg) && score < TWO63 as real && Encode(cfg, score, t).Some?
    ensures Decode(cfg, Encode(cfg, score, t).value) == score
  {
    var c := WithDefaults(cfg);
    if c.tie.FirstToReach? {
      EncodeFits(cfg, score, t, AMD64_OVERFLOW);
      var ts := SinceEpoch(t, c.epoch);
      var m := Pow2(TimeBits(c));
      Unpack(m, score.Floor, if c.order.Asc? then ts else m - 1 - ts);
      assert ToInt64(Packed(cfg, score, t) as real, AMD64_OVERFLOW) == Packed(cfg, score, t);
    }
  }

  /** Accepted values compare as (better score, then earlier second), in both sort orders. */
  lemma EncodeOrder(cfg: Config, s1: real, t1: Instant, s2: real, t2: Instant)
    requires ValidConfig(cfg) && WithDefaults(cfg).tie.FirstToReach?
    requires s1 < TWO63 as real && s2 < TWO63 as real
    requires Encode(cfg, s1, t1).Some? && Encode(cfg, s2, t2).Some?
    ensures var c := WithDefaults(cfg);
            var e1, e2 := Encode(cfg, s1, t1).value, Encode(cfg, s2, t2).value;
            var d1, d2 := SinceEpoch(t1, c.epoch), SinceEpoch(t2, c.epoch);
            && (c.order.Asc? ==> (e1 < e2 <==> s1 < s2 || (s1 == s2 && d1 < d2)))
            && (c.order.Desc? ==> (e1 > e2 <==> s1 > s2 || (s1 == s2 && d1 < d2)))
            && (e1 == e2 <==> s1 == s2 && d1 == d2)
  {
    var c := WithDefaults(cfg);
    EncodeFits(cfg, s1, t1, AMD64_OVERFLOW);
    EncodeFits(cfg, s2, t2, AMD64_OVERFLOW);
    var m := Pow2(TimeBits(c));
    var d1, d2 := SinceEpoch(t1, c.epoch), SinceEpoch(t2, c.epoch);
    var a1 := if c.order.Asc? then d1 else m - 1 - d1;
    var a2 := if c.order.Asc? then d2 else m - 1 - d2;
    PackOrder(m, s1.Floor, a1, s2.Floor, a2);
    PackOrder(m, s2.Floor, a2, s1.Floor, a1);
  }

  /** On an unsaturated clock the encoded seconds are the real ones. */
  lemma EncodeOrderExact(cfg: Config, s1: real, t1: Instant, s2: real, t2: Instant)
    requires ValidConfig(cfg) && WithDefaults(cfg).tie.FirstToReach?
    requires s1 < TWO63 as real && s2 < TWO63 as real
    requires Encode(cfg, s1, t1).Some? && Encode(cfg, s2, t2).Some?
    ensures var c := WithDefaults(cfg);
            var e1, e2 := Encode(cfg, s1, t1).value, Encode(cfg, s2, t2).value;
            s1 == s2 && t1 < t2 ==>
              ((if c.order.Asc? then e1 < e2 else e1 > e2) <==> t1 - c.epoch < MAX_DURATION)
  {
    EncodeOrder(cfg, s1, t1, s2, t2);
  }

  lemma OverflowWraps(half: int)
    ensures Wrap64(-TWO63 * (2 * half)) == 0
  {
    var x := -TWO63 * (2 * half);
    assert x == (-half) * TWO64;
    assert ((-half) * TWO64) % TWO64 == 0;
  }

  /** Above 2^63 the conversion leaves the int64 range: amd64 then accepts the score and stores it as
      zero, so an accepted score survives the round trip exactly when it is below 2^63. */
  lemma EncodeOverflow(cfg: Config, score: real, t: Instant)
    requires ValidConfig(cfg) && WithDefaults(cfg).tie.FirstToReach?
    requires Encode(cfg, score, t).Some?
    ensures Decode(cfg, Encode(cfg, score, t).value) == score <==> score < TWO63 as real
    ensures score >= TWO63 as real ==> Decode(cfg, Encode(cfg, score, t).value) == 0.0
  {
    if score < TWO63 as real {
      DecodeEncode(cfg, score, t);
    } else {
      EncodeOverflowValue(cfg, score, t);
      var m := Pow2(TimeBits(WithDefaults(cfg)));
      var comp := Encode(cfg, score, t).value.Floor;
      Unpack(m, 0, comp);
      assert ToInt64(comp as real, AMD64_OVERFLOW) == comp;
    }
  }

  lemma EncodeOverflowValue(cfg: Config, score: real, t: Instant)
    requires ValidConfig(cfg) && WithDefaults(cfg).tie.FirstToReach?
    requires Encode(cfg, score, t).Some? && score >= TWO63 as real
    ensures var e := Encode(cfg, score, t).value;
            Integral(e) && 0 <= e.Floor < Pow2(TimeBits(WithDefaults(cfg))) <= TWO53
  {
    var c := WithDefaults(cfg);
    var n := TimeBits(c);
    OverflowWraps(Pow2(n - 1));
    assert Pow2(n) <= TWO53 by {
      Pow2Add(c.scoreBits, n);
      Pow2Values();
      StepMul(Pow2(n), 0, Pow2(c.scoreBits));
    }
  }

  /** decode never reverses the stored order. */
  lemma DecodeMonotone(cfg: Config, a: real, b: real)
    requires a <= b
    requires WithDefaults(cfg).tie.FirstToReach? ==> -(TWO63 as real) <= a && b < TWO63 as real
    ensures Decode(cfg, a) <= Decode(cfg, b)
  {
    var c := WithDefaults(cfg);
    if c.tie.FirstToReach? && c.scoreBits <= 53 {
      var m := Pow2(TimeBits(c));
      var x, y := ToInt64(a, AMD64_OVERFLOW), ToInt64(b, AMD64_OVERFLOW);
      assert x <= y;
      DivMonotone(m, x, y);
    }
  }

  lemma DivMonotone(m: int, x: int, y: int)
    requires m > 0 && x <= y
    ensures x / m <= y / m
  {
    if x / m > y / m {
      assert x == (x / m) * m + x % m;
      assert y == (y / m) * m + y % m;
      PackOrder(m, y / m, y % m, x / m, x % m);
    }
  }
}

/**
 * The bounded random sampler `Zufall<T>` and the seeded random source it draws from.
 *
 * `java.util.Random` is replaced by an oracle: the i-th call of `nextLong()` yields
 * `draws(i)`.  Two runs over the same oracle therefore see the same draws.
 */
module Zufall {
  import opened JavaNum

  /** The shared `java.util.Random`: `cursor` counts the `nextLong()` calls made so far. */
  class RandomSource {
    const draws: nat -> Long
    var cursor: nat

    constructor (draws: nat -> Long)
      ensures this.draws == draws && cursor == 0
    {
      this.draws := draws;
      cursor := 0;
    }

    method NextLong() returns (d: Long)
      modifies this
      ensures d == draws(old(cursor)) && cursor == old(cursor) + 1
    {
      d := draws(cursor);
      cursor := cursor + 1;
    }
  }

  /** The long-valued state of a sampler: its lower bound and the width of its range. */
  datatype Bounds = Bounds(start: Long, range: Long)

  /** What one call of `random()` yields, on the long representation, and the cursor after it. */
  datatype Drawn = Drawn(value: Long, cursor: nat)

  /** The value `start + Math.abs(d) % range` computed in `long` arithmetic from one draw d. */
  function Sample(start: Long, range: Long, d: Long): Long
    requires range != 0
  {
    WrapLong(start + Rem(Abs(d), range))
  }

  /** One call of `random()` at draw position `cursor`: no draw is consumed when the range is empty. */
  function Draw(b: Bounds, draws: nat -> Long, cursor: nat): (r: Drawn)
    ensures r.cursor == cursor + (if b.range == 0 then 0 else 1)
    ensures b.range == 0 ==> r.value == b.start
  {
    if b.range == 0 then Drawn(b.start, cursor)
    else Drawn(Sample(b.start, b.range, draws(cursor)), cursor + 1)
  }

  /** With a positive range, every draw but the most negative long lands in [start, start + range):
      the upper bound itself is never returned. */
  lemma SampleInRange(start: Long, range: Long, d: Long)
    requires 0 < range && start + range <= LONG_MAX + 1
    requires d != LONG_MIN
    ensures start <= Sample(start, range, d) < start + range
    ensures Sample(start, range, d) == start + Abs(d) % range
  {
    RemIsTruncating(Abs(d), range);
  }

  /** With a negative range, `%` still yields a value in [0, |range|) for a non-negative dividend,
      so the sample lies in [start, start - range); a range of -1 always yields start. */
  lemma SampleNegativeRange(start: Long, range: Long, d: Long)
    requires range < 0 && start + Magnitude(range) <= LONG_MAX + 1
    requires d != LONG_MIN
    ensures start <= Sample(start, range, d) < start + Magnitude(range)
    ensures range == -1 ==> Sample(start, range, d) == start
  {
    assert 0 <= Rem(Abs(d), range) < Magnitude(range);
  }

  /** A range of width one, either sign, yields start for every draw, `Long.MIN_VALUE` included:
      any remainder modulo 1 is zero. */
  lemma UnitRangeYieldsStart(start: Long, range: Long, d: Long)
    requires range == 1 || range == -1
    ensures Sample(start, range, d) == start
  {
    RemIsTruncating(Abs(d), range);
  }

  /** The most negative draw is where `Math.abs` fails: its remainder is zero or negative,
      so the sample can fall below start. */
  lemma SampleOfMostNegativeDraw(start: Long, range: Long)
    requires range != 0 && LONG_MIN + Magnitude(range) <= start
    ensures Sample(start, range, LONG_MIN as Long) <= start
    ensures Magnitude(range) == 3 ==> Sample(start, range, LONG_MIN as Long) == start - 2
  {
    assert Abs(LONG_MIN as Long) == LONG_MIN;
    RemIsTruncating(LONG_MIN, range);
    if Magnitude(range) == 3 {
      assert (-LONG_MIN) % range == 2;
    }
  }

  /** `Zufall<T>`: a sampler over [min, max) of a domain T that maps to and from `long`. */
  class Zufall<T> {
    const start: Long
    const range: Long
    const random: RandomSource
    const fromLong: Long -> T

    constructor (random: RandomSource, min: T, max: T, toLong: T -> Long, fromLong: Long -> T)
      ensures start == toLong(min) && range == WrapLong(toLong(max) - toLong(min))
      ensures this.random == random
      ensures forall l :: this.fromLong(l) == fromLong(l)
    {
      start := toLong(min);
      range := WrapLong(toLong(max) - toLong(min));
      this.random := random;
      this.fromLong := fromLong;
    }

    function AsBounds(): Bounds
    {
      Bounds(start, range)
    }

    /** `random()`: the sample of the next draw, or `fromLong(start)` without a draw when the range is empty. */
    method Random() returns (r: T)
      modifies random
      ensures var d := Draw(AsBounds(), random.draws, old(random.cursor));
              r == fromLong(d.value) && random.cursor == d.cursor
    {
      if range == 0 {
        return fromLong(start);
      }
      var l := random.NextLong();
      r := fromLong(WrapLong(start + Rem(Abs(l), range)));
    }

    /** `equals`: two samplers are equal when their bounds are, whatever random source they use. */
    predicate Equals(other: Zufall<T>)
      ensures Equals(other) <==> AsBounds() == other.AsBounds()
    {
      start == other.start && range == other.range
    }
  }

  /** Two samplers that are `equals`, converting alike, each drawing from its own source with the
      same draws at the same position: one `random()` call on each returns the same value and
      leaves both sources at the same position. */
  method EqualSamplersDrawAlike<T(==)>(a: Zufall<T>, b: Zufall<T>) returns (x: T, y: T)
    requires a.Equals(b) && forall l :: a.fromLong(l) == b.fromLong(l)
    requires a.random != b.random && a.random.draws == b.random.draws
    requires a.random.cursor == b.random.cursor
    modifies a.random, b.random
    ensures x == y && a.random.cursor == b.random.cursor
  {
    x := a.Random();
    y := b.Random();
  }
}

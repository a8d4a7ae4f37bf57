/** `IntegerZufall`: a `Zufall<Integer>` whose long representation is the widened int. */
module IntegerZufall {
  import opened JavaNum
  import opened Zufall

  /** `toLong`: widening an int to a long keeps its value. */
  function ToLong(i: Int): (r: Long)
    ensures r as int == i as int
  {
    i
  }

  /** `fromLong`: the narrowing cast `(int) l`, which keeps the low 32 bits. */
  function FromLong(l: Long): (r: Int)
    ensures INT_MIN <= l <= INT_MAX ==> r == l
  {
    WrapInt(l)
  }

  /** Narrowing after widening gives back every int. */
  lemma FromLongToLong(i: Int)
    ensures FromLong(ToLong(i)) == i
  {
  }

  /** The constructor `new IntegerZufall(random, min, max)`. */
  method NewIntegerZufall(random: RandomSource, min: Int, max: Int) returns (z: Zufall<Int>)
    ensures fresh(z) && z.random == random
    ensures z.AsBounds() == Bounds(min, max - min)
    ensures forall l :: z.fromLong(l) == FromLong(l)
  {
    z := new Zufall(random, min, max, ToLong, FromLong);
  }

  /** The int sampled from one call of `random()` on bounds [min, max). */
  function IntegerDraw(min: Int, max: Int, draws: nat -> Long, cursor: nat): Int
  {
    FromLong(Draw(Bounds(min, max - min), draws, cursor).value)
  }

  /** For int bounds min < max every sample lies in [min, max - 1], so the narrowing cast loses
      nothing; equal bounds always yield min, without consuming a draw. */
  lemma IntegerDrawInRange(min: Int, max: Int, draws: nat -> Long, cursor: nat)
    requires min <= max
    requires min < max ==> draws(cursor) != LONG_MIN
    ensures min == max ==> IntegerDraw(min, max, draws, cursor) == min
    ensures min < max ==> min <= IntegerDraw(min, max, draws, cursor) < max
    ensures min < max ==> IntegerDraw(min, max, draws, cursor) == Draw(Bounds(min, max - min), draws, cursor).value
  {
    if min < max {
      SampleInRange(min, max - min, draws(cursor));
    }
  }
}

/**
 * The C library's random number generator, as the game uses it.
 *
 * `rand()` is not modelled: the sequence of values it returns is injected
 * as a stream, so every run of the model is determined by that stream
 * (the source seeds it with `srand(time(NULL))`).
 */
module Random {

  /** RAND_MAX of the C library the game is built against (glibc). */
  const RandMax: int := 2147483647

  /** A value `rand()` can return. */
  type RandValue = r: int | 0 <= r <= RandMax

  /** `rand()/RAND_MAX`: a draw scaled to the unit interval. */
  function UnitDraw(r: RandValue): (u: real)
    ensures 0.0 <= u <= 1.0
    ensures u == 0.0 <==> r == 0
    ensures u == 1.0 <==> r == RandMax
  {
    r as real / RandMax as real
  }

  /** The generator's hidden state: the stream and how much of it has been used. */
  class Rng {
    const stream: nat -> RandValue
    var drawn: nat

    constructor (stream: nat -> RandValue)
      ensures this.stream == stream && drawn == 0
    {
      this.stream := stream;
      drawn := 0;
    }

    /** One call of `rand()`. */
    method Next() returns (r: RandValue)
      modifies this
      ensures r == stream(old(drawn)) && drawn == old(drawn) + 1
    {
      r := stream(drawn);
      drawn := drawn + 1;
    }
  }
}

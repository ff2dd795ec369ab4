/** rand.c: the Mersenne Twister kept in one array that is rewritten in place, and rejection
    sampling on top of it. `unsigned long` is 32 bits wide. */
module Rand {

  const N: nat := 624
  const M: nat := 397
  const MATRIX_A: bv32 := 0x9908b0df
  const UPPER_MASK: bv32 := 0x80000000
  const LOWER_MASK: bv32 := 0x7fffffff
  const RAND_MASK: bv32 := 0x7fffffff
  const DEFAULT_SEED: bv32 := 4357

  function Xor(x: bv32, y: bv32): bv32 { x ^ y }

  function Half(y: bv32): bv32 { y >> 1 }

  predicate Odd(y: bv32) { y & 1 != 0 }

  /** Multiplication by the twist matrix: shift right, add `a` if a one was shifted out. */
  function TimesA(y: bv32): bv32
  {
    if Odd(y) then Xor(Half(y), MATRIX_A) else Half(y)
  }

  /** The upper bit of one word joined to the lower bits of the next. */
  function Join(u: bv32, v: bv32): bv32
  {
    (u & UPPER_MASK) | (v & LOWER_MASK)
  }

  /** The recurrence: x(k+N) from x(k+M), x(k) and x(k+1). */
  function Recur(m: bv32, u: bv32, v: bv32): bv32
  {
    Xor(m, TimesA(Join(u, v)))
  }

  /** The word genrand stores: `m ^ (y >> 1) ^ mag01[y & 0x1]`. */
  function Stored(m: bv32, y: bv32): bv32
  {
    Xor(Xor(m, Half(y)), if Odd(y) then MATRIX_A else 0)
  }

  lemma StoredIsRecur(m: bv32, u: bv32, v: bv32)
    ensures Stored(m, Join(u, v)) == Recur(m, u, v)
  {
    hide Join, Half, Odd, Xor;
    var z := Half(Join(u, v));
    XorZero(Xor(m, z));
    XorAssoc(m, z, MATRIX_A);
  }

  lemma XorZero(x: bv32)
    ensures Xor(x, 0) == x
  {}

  lemma XorAssoc(x: bv32, y: bv32, z: bv32)
    ensures Xor(Xor(x, y), z) == Xor(x, Xor(y, z))
  {}

  function Knuth(x: bv32): bv32
  {
    69069 * x
  }

  /** The MT19937 sequence: Knuth's generator for the first N words, then the recurrence. */
  function X(seed: bv32, n: nat): bv32
  {
    if n == 0 then seed
    else if n < N then Knuth(X(seed, n - 1))
    else Recur(X(seed, n - N + M), X(seed, n - N), X(seed, n - N + 1))
  }

  lemma XStep(seed: bv32, k: nat)
    ensures X(seed, k + N) == Recur(X(seed, k + M), X(seed, k), X(seed, k + 1))
  {
    hide Recur;
  }

  /** The four steps of tempering. */
  function ShiftU(y: bv32): bv32 { y ^ (y >> 11) }

  function ShiftS(y: bv32): bv32 { y ^ ((y << 7) & 0x9d2c5680) }

  function ShiftT(y: bv32): bv32 { y ^ ((y << 15) & 0xefc60000) }

  function ShiftL(y: bv32): bv32 { y ^ (y >> 18) }

  function Temper(x: bv32): bv32
  {
    ShiftL(ShiftT(ShiftS(ShiftU(x))))
  }

  /** `y & RAND_MAX`: the top bit is stripped off. */
  function Strip(y: bv32): bv31
  {
    (y & RAND_MASK) as bv31
  }

  /** What the k-th call after seeding returns. */
  function Output(seed: bv32, k: nat): bv31
  {
    Strip(Temper(X(seed, N + k)))
  }

  class Generator {
    const mt: array<bv32>
    var mti: nat
    ghost var seed: bv32
    ghost var calls: nat          // genrand calls since seeding

    ghost predicate Seeded()
      reads this, mt
    {
      && mt.Length == N && mti <= N && mti <= calls + N
      && forall i | 0 <= i < N :: mt[i] == X(seed, calls + N - mti + i)
    }

    /** The static state before any seeding: mti is N+1. */
    constructor ()
      ensures mt.Length == N && mti == N + 1 && fresh(mt)
    {
      mt := new bv32[N];
      mti := N + 1;
    }

    method Sgenrand(s: bv32)
      requires mt.Length == N
      modifies this, mt
      ensures Seeded() && mti == N && seed == s && calls == 0
    {
      hide Knuth, Recur;
      mt[0] := s;
      mti := 1;
      seed, calls := s, 0;
      while mti < N
        invariant 1 <= mti <= N && seed == s && calls == 0
        invariant forall i | 0 <= i < mti :: mt[i] == X(s, i)
      {
        mt[mti] := Knuth(mt[mti - 1]);
        mti := mti + 1;
      }
    }

    /** Words before kk have moved on by N terms, the others have not. */
    ghost predicate Moved(kk: nat)
      reads this, mt
    {
      && mt.Length == N
      && (forall i | 0 <= i < kk && i < N :: mt[i] == X(seed, calls + N + i))
      && (forall i | kk <= i < N :: mt[i] == X(seed, calls + i))
    }

    /** "generate N words at one time": the array moves on by N terms of the sequence. */
    method Twist()
      requires Seeded() && mti == N
      modifies this`mti, mt
      ensures Seeded() && mti == 0
    {
      hide Join, Recur, Stored, X;
      assert Moved(0);
      TwistLow();
      TwistHigh();
      var y := Join(mt[N - 1], mt[0]);
      StoredIsRecur(mt[M - 1], mt[N - 1], mt[0]);
      XStep(seed, calls + N - 1);
      mt[N - 1] := Stored(mt[M - 1], y);
      mti := 0;
      assert Moved(N);
    }

    method TwistLow()
      requires Moved(0)
      modifies mt
      ensures Moved(N - M)
    {
      hide Join, Recur, Stored, X;
      var kk := 0;
      while kk < N - M
        invariant 0 <= kk <= N - M && Moved(kk)
      {
        var y := Join(mt[kk], mt[kk + 1]);
        StoredIsRecur(mt[kk + M], mt[kk], mt[kk + 1]);
        XStep(seed, calls + kk);
        mt[kk] := Stored(mt[kk + M], y);
        kk := kk + 1;
      }
    }

    method TwistHigh()
      requires Moved(N - M)
      modifies mt
      ensures Moved(N - 1)
    {
      hide Join, Recur, Stored, X;
      var kk := N - M;
      while kk < N - 1
        invariant N - M <= kk <= N - 1 && Moved(kk)
      {
        var y := Join(mt[kk], mt[kk + 1]);
        StoredIsRecur(mt[kk + M - N], mt[kk], mt[kk + 1]);
        XStep(seed, calls + kk);
        mt[kk] := Stored(mt[kk + M - N], y);
        kk := kk + 1;
      }
    }

    /** genrand: the tempered next term of the sequence with its top bit cleared; an unseeded
        generator seeds itself first. */
    method Genrand() returns (r: bv31)
      requires mt.Length == N && (mti == N + 1 || Seeded())
      modifies this, mt
      ensures Seeded()
      ensures old(mti) == N + 1 ==> seed == DEFAULT_SEED && calls == 1
      ensures old(mti) != N + 1 ==> seed == old(seed) && calls == old(calls) + 1
      ensures r == Output(seed, calls - 1)
    {
      hide Temper, X, Strip;
      if mti >= N {
        if mti == N + 1 {
          Sgenrand(DEFAULT_SEED);
        }
        Twist();
      }
      var y := mt[mti];
      mti := mti + 1;
      r := Strip(Temper(y));
      calls := calls + 1;
    }
  }
}

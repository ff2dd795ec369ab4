/** rand.c against its reference: tempering is a bijection with an explicit inverse, and the generator
    with its default seed starts with the number published for MT19937. */
module RandReference {
  import opened Rand

  // ---------------------------------------------------------------- tempering

  /** Each step undone: the last two are their own inverses. */
  function BackU(z: bv32): bv32 { z ^ (z >> 11) ^ (z >> 22) }

  function BackS(z: bv32): bv32
  {
    OneBackS(z, OneBackS(z, OneBackS(z, OneBackS(z, z))))
  }

  function OneBackS(z: bv32, y: bv32): bv32 { z ^ ((y << 7) & 0x9d2c5680) }

  lemma Shifted(x: bv32, y: bv32)
    ensures (x ^ y) >> 11 == (x >> 11) ^ (y >> 11) && (x ^ y) >> 22 == (x >> 22) ^ (y >> 22)
    ensures (x ^ y) >> 18 == (x >> 18) ^ (y >> 18)
  {
  }

  lemma ShiftedTwice(x: bv32)
    ensures (x >> 11) >> 11 == x >> 22 && (x >> 11) >> 22 == 0 && (x >> 18) >> 18 == 0
  {
  }

  lemma Cancel(x: bv32, y: bv32, z: bv32)
    ensures (x ^ y) ^ (y ^ z) ^ (z ^ 0) == x && (x ^ y) ^ (y ^ 0) == x
  {
  }

  lemma UndoU(y: bv32)
    ensures BackU(ShiftU(y)) == y
  {
    Shifted(y, y >> 11);
    ShiftedTwice(y);
    Cancel(y, y >> 11, y >> 22);
  }

  lemma UndoS(y: bv32)
    ensures BackS(ShiftS(y)) == y
  {
  }

  lemma UndoT(y: bv32)
    ensures ShiftT(ShiftT(y)) == y
  {
  }

  lemma UndoL(y: bv32)
    ensures ShiftL(ShiftL(y)) == y
  {
    Shifted(y, y >> 18);
    ShiftedTwice(y);
    Cancel(y, y >> 18, 0);
  }

  function Untemper(y: bv32): bv32
  {
    BackU(BackS(ShiftT(ShiftL(y))))
  }

  /** No two words are tempered to the same. */
  lemma UntemperTemper(x: bv32)
    ensures Untemper(Temper(x)) == x
  {
    hide ShiftU, ShiftS, ShiftT, ShiftL, BackU, BackS;
    var s := ShiftS(ShiftU(x));
    UndoL(ShiftT(s));
    UndoT(s);
    UndoS(ShiftU(x));
    UndoU(x);
  }

  // ---------------------------------------------------------------- the first number

  function Four(x: bv32): bv32 { Knuth(Knuth(Knuth(Knuth(x)))) }

  function Sixteen(x: bv32): bv32 { Four(Four(Four(Four(x)))) }

  function SixtyFour(x: bv32): bv32 { Sixteen(Sixteen(Sixteen(Sixteen(x)))) }

  lemma FourOn(seed: bv32, n: nat)
    requires n + 4 < N
    ensures X(seed, n + 4) == Four(X(seed, n))
  {
    hide Knuth;
    assert X(seed, n + 2) == Knuth(Knuth(X(seed, n)));
  }

  lemma SixteenOn(seed: bv32, n: nat)
    requires n + 16 < N
    ensures X(seed, n + 16) == Sixteen(X(seed, n))
  {
    hide Four, X;
    FourOn(seed, n);
    FourOn(seed, n + 4);
    FourOn(seed, n + 8);
    FourOn(seed, n + 12);
  }

  lemma SixtyFourOn(seed: bv32, n: nat)
    requires n + 64 < N
    ensures X(seed, n + 64) == SixtyFour(X(seed, n))
  {
    hide Sixteen, X;
    SixteenOn(seed, n);
    SixteenOn(seed, n + 16);
    SixteenOn(seed, n + 32);
    SixteenOn(seed, n + 48);
  }

  lemma To64()
    ensures SixtyFour(4357) == 3726226949
  {
  }

  lemma To128()
    ensures SixtyFour(3726226949) == 4067973893
  {
  }

  lemma To192()
    ensures SixtyFour(4067973893) == 572260357
  {
  }

  lemma To256()
    ensures SixtyFour(572260357) == 1376036101
  {
  }

  lemma To320()
    ensures SixtyFour(1376036101) == 1731348997
  {
  }

  lemma To384()
    ensures SixtyFour(1731348997) == 1185214213
  {
  }

  lemma To397()
    ensures Knuth(Four(Four(Four(1185214213)))) == 61989553
  {
  }

  lemma On(seed: bv32, n: nat, x: bv32, y: bv32)
    requires n + 64 < N && X(seed, n) == x && SixtyFour(x) == y
    ensures X(seed, n + 64) == y
  {
    hide X, SixtyFour;
    SixtyFourOn(seed, n);
  }

  lemma First(seed: bv32)
    ensures X(seed, 0) == seed
  {
  }

  lemma Word384()
    ensures X(4357, 384) == 1185214213
  {
    hide X, SixtyFour;
    First(4357);
    To64();
    On(4357, 0, 4357, 3726226949);
    To128();
    On(4357, 64, 3726226949, 4067973893);
    To192();
    On(4357, 128, 4067973893, 572260357);
    To256();
    On(4357, 192, 572260357, 1376036101);
    To320();
    On(4357, 256, 1376036101, 1731348997);
    To384();
    On(4357, 320, 1731348997, 1185214213);
  }

  lemma SeedWords()
    ensures X(4357, 0) == 4357 && X(4357, 1) == 300933633 && X(4357, 397) == 61989553
  {
    Word384();
    To397();
    FourOn(4357, 384);
    FourOn(4357, 388);
    FourOn(4357, 392);
    assert X(4357, 1) == Knuth(4357) && Knuth(4357) == 300933633;
    hide Four, Knuth;
    assert X(4357, 397) == Knuth(X(4357, 396));
  }

  lemma FirstWord()
    ensures Recur(61989553, 4357, 300933633) == 2454627182
  {
  }

  lemma Tempered()
    ensures Temper(2454627182) == 3510405877 && Strip(3510405877) == 1362922229
  {
  }

  /** With the default seed, 4357, the first word is the published 3510405877; genrand returns it
      without its top bit. */
  lemma FirstOutput()
    ensures Temper(X(DEFAULT_SEED, N)) == 3510405877 && Output(DEFAULT_SEED, 0) == 1362922229
  {
    SeedWords();
    FirstWord();
    Tempered();
    hide Recur, Temper, Strip, Knuth;
    assert X(4357, 624) == Recur(X(4357, 397), X(4357, 0), X(4357, 1)) by { XStep(4357, 0); }
  }
}

/** Disk blocks as bytes, and the little-endian 32-bit words the kernel overlays on them
    (`struct logheader *` in log.c, `uint *a` in fs.c). */
module Blocks {

  const BSIZE: nat := 512
  const WORDS: nat := 128            // BSIZE / sizeof(uint)
  const TWO32: nat := 0x1_0000_0000

  type byte = x: int | 0 <= x < 256
  type word = x: int | 0 <= x < TWO32
  type Block = b: seq<byte> | |b| == BSIZE witness Zeros(BSIZE)

  function Zeros(n: nat): (r: seq<byte>)
    ensures |r| == n && forall i | 0 <= i < n :: r[i] == 0
  {
    seq(n, _ => 0)
  }

  const ZERO: Block := Zeros(BSIZE)

  function Word(b: Block, i: nat): word
    requires i < WORDS
  {
    (b[4*i] as int) + 0x100 * (b[4*i+1] as int) + 0x1_0000 * (b[4*i+2] as int) + 0x100_0000 * (b[4*i+3] as int)
  }

  function SetWord(b: Block, i: nat, w: word): (r: Block)
    requires i < WORDS
  {
    b[4*i := w % 0x100][4*i+1 := w / 0x100 % 0x100][4*i+2 := w / 0x1_0000 % 0x100][4*i+3 := w / 0x100_0000]
  }

  lemma SplitWord(w: word)
    ensures w == w % 0x100 + 0x100 * (w / 0x100 % 0x100) + 0x1_0000 * (w / 0x1_0000 % 0x100)
                 + 0x100_0000 * (w / 0x100_0000)
  {
    var v := w / 0x100;
    var u := v / 0x100;
    assert w / 0x1_0000 == u;
    assert w / 0x100_0000 == u / 0x100;
  }

  /** Storing a word changes that word and no other. */
  lemma SetWordThenWord(b: Block, i: nat, w: word, j: nat)
    requires i < WORDS && j < WORDS
    ensures Word(SetWord(b, i, w), j) == if i == j then w else Word(b, j)
  {
    SplitWord(w);
    var r := SetWord(b, i, w);
    if i == j {
      assert r[4*i] == w % 0x100 && r[4*i+1] == w / 0x100 % 0x100;
      assert r[4*i+2] == w / 0x1_0000 % 0x100 && r[4*i+3] == w / 0x100_0000;
    } else {
      assert r[4*j] == b[4*j] && r[4*j+1] == b[4*j+1] && r[4*j+2] == b[4*j+2] && r[4*j+3] == b[4*j+3];
    }
  }

  lemma ZeroWord(i: nat)
    requires i < WORDS
    ensures Word(ZERO, i) == 0
  {}

  /** A 32-bit word read as a C `int`. */
  function Signed(w: word): (r: int)
    ensures -0x8000_0000 <= r < 0x8000_0000 && (r == w || r == w - TWO32)
  {
    if w < 0x8000_0000 then w else w - TWO32
  }
}

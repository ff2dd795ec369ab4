/** The ring of pipe.c: PIPESIZE bytes and two free-running 32-bit counters that wrap. */
module PipeRing {
  const TWO32: nat := 0x1_0000_0000

  type byte = x: int | 0 <= x < 256
  type uint = x: int | 0 <= x < TWO32

  datatype Ring = Ring(data: seq<byte>, nread: uint, nwrite: uint)

  /** The slot arithmetic survives the wrap of the counters because the size divides 2^32. */
  ghost predicate SizeOk(size: nat)
  {
    0 < size < TWO32 && TWO32 % size == 0
  }

  predicate Full(r: Ring)
  {
    r.nwrite == (r.nread + |r.data|) % TWO32
  }

  predicate Empty(r: Ring)
  {
    r.nread == r.nwrite
  }

  function Slot(k: nat, size: nat): (r: nat)
    requires 0 < size
    ensures r < size
  {
    k % size
  }

  /** p->data[p->nwrite++ % PIPESIZE] = c */
  function Put(r: Ring, c: byte): Ring
    requires 0 < |r.data|
  {
    r.(data := r.data[Slot(r.nwrite, |r.data|) := c], nwrite := (r.nwrite + 1) % TWO32)
  }

  /** p->data[p->nread++ % PIPESIZE] */
  function Front(r: Ring): byte
    requires 0 < |r.data|
  {
    r.data[Slot(r.nread, |r.data|)]
  }

  function Drop(r: Ring): Ring
  {
    r.(nread := (r.nread + 1) % TWO32)
  }

  /** After storing the bytes `stored` and fetching `got` of them, the ring holds exactly the rest,
      in order. */
  ghost predicate Queue(r: Ring, stored: seq<byte>, got: nat)
  {
    && SizeOk(|r.data|)
    && got <= |stored| <= got + |r.data|
    && r.nread == got % TWO32 && r.nwrite == |stored| % TWO32
    && forall k | got <= k < |stored| :: r.data[Slot(k, |r.data|)] == stored[k]
  }

  lemma Remainder(a: int, q: int, r: int, m: int)
    requires m > 0 && a == q * m + r && 0 <= r < m
    ensures a % m == r
  {
    var d := q - a / m;
    assert a == m * (a / m) + a % m;
    assert d * m == a % m - r by { assert d * m == q * m - (a / m) * m; }
    if d != 0 { Multiple(d, m); }
  }

  lemma Multiple(d: int, m: int)
    requires d != 0 && m > 0
    ensures d * m >= m || d * m <= -m
  {}

  /** The wrap of a counter moves no slot. */
  lemma SlotWrap(k: nat, size: nat)
    requires SizeOk(size)
    ensures Slot(k % TWO32, size) == Slot(k, size)
  {
    var q, m, r := k / TWO32, TWO32 / size, k % TWO32;
    assert TWO32 == m * size;
    calc {
      k;
      q * TWO32 + r;
      q * (m * size) + r;
      (q * m) * size + r;
      (q * m) * size + (r / size) * size + r % size;
      (q * m + r / size) * size + r % size;
    }
    Remainder(k, q * m + r / size, r % size, size);
  }

  /** Slots of pending bytes are distinct. */
  lemma SlotsDiffer(j: nat, k: nat, size: nat)
    requires 0 < size && j < k < j + size
    ensures Slot(j, size) != Slot(k, size)
  {
    if j % size == k % size {
      Remainder(k - j, k / size - j / size, 0, size);
      Remainder(k - j, 0, k - j, size);
      assert false;
    }
  }

  lemma FullMeans(r: Ring, stored: seq<byte>, got: nat)
    requires Queue(r, stored, got)
    ensures Full(r) <==> |stored| == got + |r.data|
    ensures Empty(r) <==> |stored| == got
  {
    var n := |stored| - got;
    ModShift(got, n, |r.data|);
    ModShift(got, n, 0);
  }

  /** Counters that are less than 2^32 apart are told apart by their remainders. */
  lemma ModShift(g: nat, n: nat, s: nat)
    requires n < TWO32 && s < TWO32
    ensures (g + n) % TWO32 == (g % TWO32 + s) % TWO32 <==> n == s
  {
  }

  lemma PutQueue(r: Ring, stored: seq<byte>, got: nat, c: byte)
    requires Queue(r, stored, got) && !Full(r)
    ensures Queue(Put(r, c), stored + [c], got)
  {
    hide Slot, SizeOk, Full;
    var size := |r.data|;
    SizeBounds(size);
    FullMeans(r, stored, got);
    SlotWrap(|stored|, size);
    assert (|stored| + 1) % TWO32 == (r.nwrite + 1) % TWO32;
    forall k | got <= k < |stored| ensures Put(r, c).data[Slot(k, size)] == stored[k] {
      SlotsDiffer(k, |stored|, size);
    }
  }

  lemma DropQueue(r: Ring, stored: seq<byte>, got: nat)
    requires Queue(r, stored, got) && !Empty(r)
    ensures got < |stored| && Front(r) == stored[got] && Queue(Drop(r), stored, got + 1)
  {
    hide Slot, SizeOk, Empty;
    SizeBounds(|r.data|);
    FullMeans(r, stored, got);
    SlotWrap(got, |r.data|);
    assert (got + 1) % TWO32 == (r.nread + 1) % TWO32;
  }

  lemma SizeBounds(size: nat)
    requires SizeOk(size)
    ensures 0 < size < TWO32
  {}

  /** struct pipe's ring, with the loops of pipewrite and piperead between two sleeps. */
  class Buffer {
    const data: array<byte>
    var nread: uint
    var nwrite: uint
    ghost var stored: seq<byte>     // every byte ever stored
    ghost var got: nat              // how many of them have been fetched

    ghost function View(): Ring
      reads this, data
    {
      Ring(data[..], nread, nwrite)
    }

    ghost predicate Valid()
      reads this, data
    {
      Queue(View(), stored, got)
    }

    /** pipealloc */
    constructor (size: nat)
      requires SizeOk(size)
      ensures Valid() && data.Length == size && stored == [] && got == 0 && fresh(data)
    {
      data := new byte[size];
      nread, nwrite := 0, 0;
      stored, got := [], 0;
    }

    /** pipewrite's for loop from byte i on, up to the point where it finishes or finds the pipe full. */
    method Store(addr: seq<byte>, i: nat) returns (j: nat)
      requires Valid() && i <= |addr|
      modifies this`nwrite, this`stored, data
      ensures Valid() && i <= j <= |addr| && (j == |addr| || Full(View()))
      ensures stored == old(stored) + addr[i..j]
    {
      hide Queue;
      j := i;
      while j < |addr| && nwrite != (nread + data.Length) % TWO32
        invariant Valid() && i <= j <= |addr|
        invariant stored == old(stored) + addr[i..j]
      {
        StoreOne(addr[j]);
        assert addr[i..j + 1] == addr[i..j] + [addr[j]];
        j := j + 1;
      }
    }

    method StoreOne(c: byte)
      requires Valid() && !Full(View())
      modifies this`nwrite, this`stored, data
      ensures Valid() && stored == old(stored) + [c] && View() == Put(old(View()), c)
    {
      PutQueue(View(), stored, got, c);
      ghost var r := Put(View(), c);
      data[Slot(nwrite, data.Length)] := c;
      nwrite := (nwrite + 1) % TWO32;
      stored := stored + [c];
      assert View() == r;
    }

    /** piperead's copying loop: the oldest bytes, at most n of them, in the order they were stored. */
    method Fetch(n: nat) returns (out: seq<byte>)
      requires Valid()
      modifies this`nread, this`got
      ensures Valid() && got == old(got) + |out| <= |stored|
      ensures out == stored[old(got)..got]
      ensures |out| == if n <= |stored| - old(got) then n else |stored| - old(got)
    {
      hide Queue;
      QueueBounds(View(), stored, got);
      out := [];
      var i := 0;
      while i < n
        invariant 0 <= i <= n && Valid() && |out| == i
        invariant old(got) <= got == old(got) + i <= |stored| && out == stored[old(got)..got]
      {
        FullMeans(View(), stored, got);
        if nread == nwrite {
          break;
        }
        DropQueue(View(), stored, got);
        QueueBounds(View(), stored, got);
        out := out + [data[Slot(nread, data.Length)]];
        nread := (nread + 1) % TWO32;
        got := got + 1;
        i := i + 1;
      }
    }
  }

  lemma QueueBounds(r: Ring, stored: seq<byte>, got: nat)
    requires Queue(r, stored, got)
    ensures got <= |stored| && 0 < |r.data|
  {}
}

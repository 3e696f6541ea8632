/**
 * MurmurHashNeutral2: the endian- and alignment-neutral variant of
 * MurmurHash2, over bytes, with the 32-bit wrap-around of `unsigned int`
 * written as `bv32` arithmetic.
 *
 * Each statement of the algorithm (`x *= m`, `x ^= x >> r`, a byte folded
 * in) is a function of its own, so that the specification and the loop are
 * built from the same steps.
 */
module Murmur {

  /** The multiplier `m` of every mixing step. */
  const M: bv32 := 0x5bd1e995

  /** The shift `r` of the block mix. */
  const R: bv32 := 24

  /** `x *= m`, wrapping modulo 2^32. */
  function Mul(x: bv32): bv32
  {
    x * M
  }

  /** `x ^= y`. */
  function Xor(x: bv32, y: bv32): bv32
  {
    x ^ y
  }

  /** `x |= y`. */
  function Or(x: bv32, y: bv32): bv32
  {
    x | y
  }

  /** `x ^= x >> r`. */
  function XorShift(x: bv32, r: bv32): bv32
    requires r < 32
  {
    Xor(x, x >> r)
  }

  /** Byte `b`, promoted to a 32-bit word, shifted left by `s` bits. */
  function Lane(b: bv8, s: bv32): bv32
    requires s <= 24
  {
    b as bv32 << s
  }

  /** The four bytes of a block read least significant first, whatever the machine's byte order. */
  function Word(b0: bv8, b1: bv8, b2: bv8, b3: bv8): bv32
  {
    Or(Or(Or(Lane(b0, 0), Lane(b1, 8)), Lane(b2, 16)), Lane(b3, 24))
  }

  /** Bits `s` to `s + 7` of `w`. */
  function ByteAt(w: bv32, s: bv32): bv32
    requires s <= 24
  {
    (w >> s) & 0xff
  }

  /** `k *= m; k ^= k >> r; k *= m`. */
  function MixBlock(k: bv32): bv32
  {
    Mul(XorShift(Mul(k), R))
  }

  /** One block folded in: `h *= m; h ^= k` with `k` the mixed block. */
  function Round(h: bv32, b0: bv8, b1: bv8, b2: bv8, b3: bv8): bv32
  {
    Xor(Mul(h), MixBlock(Word(b0, b1, b2, b3)))
  }

  /** Folds every whole 4-byte block of `d` into `h`, first block first. */
  function Blocks(h: bv32, d: seq<bv8>): bv32
    decreases |d|
  {
    if |d| < 4 then h
    else Blocks(Round(h, d[0], d[1], d[2], d[3]), d[4..])
  }

  /** The switch on the 0 to 3 bytes left, each case falling through to the next and the last to `h *= m`. */
  function Tail(h: bv32, d: seq<bv8>): bv32
    requires |d| < 4
  {
    var h3 := if |d| == 3 then Xor(h, Lane(d[2], 16)) else h;
    var h2 := if |d| >= 2 then Xor(h3, Lane(d[1], 8)) else h3;
    if |d| >= 1 then Mul(Xor(h2, Lane(d[0], 0))) else h2
  }

  /** The final avalanche: `h ^= h >> 13; h *= m; h ^= h >> 15`. */
  function Avalanche(h: bv32): bv32
  {
    XorShift(Mul(XorShift(h, 13)), 15)
  }

  /** The number of bytes the block loop consumes: `len` rounded down to a multiple of 4. */
  function BlockBytes(len: nat): nat
  {
    len - len % 4
  }

  /** A whole number of blocks followed by fewer than 4 bytes: the blocks are what the loop consumes. */
  lemma BlockBytesOf(i: nat, len: nat)
    requires i % 4 == 0 && len < 4
    ensures BlockBytes(i + len) == i
  {
  }

  /** The bytes of `key` after its last whole block. */
  function Leftover(key: seq<bv8>): (r: seq<bv8>)
    ensures |r| < 4 && key == key[..BlockBytes(|key|)] + r
  {
    key[BlockBytes(|key|)..]
  }

  /** The hash of the `len = |key|` bytes of `key` with `seed`, as the function computes it. */
  function Hash(key: seq<bv8>, seed: bv32): bv32
    requires |key| < 0x8000_0000
  {
    Avalanche(Tail(Blocks(seed ^ (|key| as bv32), key), Leftover(key)))
  }

  /** The `switch (len)` on the 0 to 3 bytes `d` left after the block loop, entered with `h0`. */
  method TailSwitch(h0: bv32, d: seq<bv8>) returns (h: bv32)
    requires |d| < 4
    ensures h == Tail(h0, d)
  {
    h := h0;
    var len := |d|;
    if len == 3 {
      h := Xor(h, Lane(d[2], 16));
    }
    if len >= 2 {
      h := Xor(h, Lane(d[1], 8));
    }
    if len >= 1 {
      h := Xor(h, Lane(d[0], 0));
      h := Mul(h);
    }
  }

  /**
   * The `while (len >= 4)` loop of MurmurHashNeutral2 over `key`, entered
   * with `h0`: returns the state after the last whole block and the offset
   * of the bytes left.
   */
  method BlockLoop(key: seq<bv8>, h0: bv32) returns (h: bv32, rest: seq<bv8>)
    ensures h == Blocks(h0, key) && rest == Leftover(key)
  {
    var len := |key|;
    h := h0;
    var i := 0;
    while len >= 4
      invariant 0 <= len && i + len == |key| && i % 4 == 0
      invariant Blocks(h, key[i..]) == Blocks(h0, key)
      decreases len
    {
      var k := Lane(key[i], 0);
      k := Or(k, Lane(key[i + 1], 8));
      k := Or(k, Lane(key[i + 2], 16));
      k := Or(k, Lane(key[i + 3], 24));

      k := Mul(k);
      k := XorShift(k, R);
      k := Mul(k);

      BlocksStep(h, key, i);
      h := Mul(h);
      h := Xor(h, k);

      i := i + 4;
      len := len - 4;
    }
    assert Blocks(h, key[i..]) == h;
    BlockBytesOf(i, len);
    rest := key[i..];
  }

  /** MurmurHashNeutral2 over `key`, a `len`-byte buffer, with `seed`. */
  method MurmurHashNeutral2(key: seq<bv8>, seed: bv32) returns (h: bv32)
    requires |key| < 0x8000_0000
    ensures h == Hash(key, seed)
  {
    var len := |key|;
    h := seed ^ (len as bv32);
    var rest;
    h, rest := BlockLoop(key, h);
    h := TailSwitch(h, rest);
    h := XorShift(h, 13);
    h := Mul(h);
    h := XorShift(h, 15);
  }

  /** Folding the blocks from offset `i` is one round followed by the blocks from `i + 4`. */
  lemma {:induction false} BlocksStep(h: bv32, key: seq<bv8>, i: nat)
    requires i + 4 <= |key|
    ensures Blocks(h, key[i..]) == Blocks(Round(h, key[i], key[i + 1], key[i + 2], key[i + 3]), key[i + 4..])
  {
    var d := key[i..];
    assert d[0] == key[i] && d[1] == key[i + 1] && d[2] == key[i + 2] && d[3] == key[i + 3];
    assert d[4..] == key[i + 4..];
  }

  /** The block loop is a left fold: the blocks of `a + b`, with `a` whole blocks, are those of `b` after those of `a`. */
  lemma {:induction false} BlocksAppend(h: bv32, a: seq<bv8>, b: seq<bv8>)
    requires |a| % 4 == 0
    ensures Blocks(h, a + b) == Blocks(Blocks(h, a), b)
    decreases |a|
  {
    if |a| == 0 {
      assert a + b == b;
    } else {
      var ab := a + b;
      assert ab[0] == a[0] && ab[1] == a[1] && ab[2] == a[2] && ab[3] == a[3];
      assert ab[4..] == a[4..] + b;
      BlocksAppend(Round(h, a[0], a[1], a[2], a[3]), a[4..], b);
    }
  }

  /** Bytes left over after the whole blocks do not enter the block loop. */
  lemma {:induction false} BlocksIgnoreTail(h: bv32, d: seq<bv8>)
    ensures Blocks(h, d) == Blocks(h, d[..BlockBytes(|d|)])
    decreases |d|
  {
    if |d| >= 4 {
      var e := d[..BlockBytes(|d|)];
      assert |e| >= 4 && e[0] == d[0] && e[1] == d[1] && e[2] == d[2] && e[3] == d[3];
      assert e[4..] == d[4..][..BlockBytes(|d[4..]|)];
      BlocksIgnoreTail(Round(h, d[0], d[1], d[2], d[3]), d[4..]);
    }
  }

  /** A block is its bytes read little-endian: byte `j` of the word is the `j`-th byte of the block. */
  lemma WordLittleEndian(b0: bv8, b1: bv8, b2: bv8, b3: bv8)
    ensures ByteAt(Word(b0, b1, b2, b3), 0) == b0 as bv32
    ensures ByteAt(Word(b0, b1, b2, b3), 8) == b1 as bv32
    ensures ByteAt(Word(b0, b1, b2, b3), 16) == b2 as bv32
    ensures ByteAt(Word(b0, b1, b2, b3), 24) == b3 as bv32
  {
  }

  /** Byte `j` of the leftover bytes `d`, or 0 past their end. */
  function Pad(d: seq<bv8>, j: nat): bv8
  {
    if j < |d| then d[j] else 0
  }

  /**
   * The fall-through switch folds the leftover bytes in as one word: the
   * bytes read little-endian and padded with zeros to four, xored into `h`
   * and followed by `h *= m`; with no byte left it does nothing.
   */
  lemma {:induction false} TailPaddedWord(h: bv32, d: seq<bv8>)
    requires |d| < 4
    ensures Tail(h, d) == if |d| == 0 then h else Mul(Xor(h, Word(Pad(d, 0), Pad(d, 1), Pad(d, 2), 0)))
  {
    ZeroLane(8);
    ZeroLane(16);
    if |d| == 3 {
      TailWord(h, d[0], d[1], d[2]);
    } else if |d| == 2 {
      TailWord(h, d[0], d[1], 0);
    } else if |d| == 1 {
      TailWord(h, d[0], 0, 0);
    }
  }

  /** Three bytes xored in lane by lane are their little-endian word xored in at once. */
  lemma {:induction false} TailWord(h: bv32, a: bv8, b: bv8, c: bv8)
    ensures Xor(Xor(Xor(h, Lane(c, 16)), Lane(b, 8)), Lane(a, 0)) == Xor(h, Word(a, b, c, 0))
  {
    LaneShift(b, 8);
    LaneShift(c, 16);
    ZeroLane(24);
    TailBits(h, Lane(a, 0), Lane(b, 0), Lane(c, 0));
  }

  lemma LaneShift(b: bv8, s: bv32)
    requires s <= 24
    ensures Lane(b, s) == Lane(b, 0) << s && Lane(b, 0) <= 0xff
  {
  }

  lemma ZeroLane(s: bv32)
    requires s <= 24
    ensures Lane(0, s) == 0
  {
  }

  lemma {:induction false} TailBits(h: bv32, x: bv32, y: bv32, z: bv32)
    requires x <= 0xff && y <= 0xff && z <= 0xff
    ensures ((h ^ (z << 16)) ^ (y << 8)) ^ x == h ^ (((x | (y << 8)) | (z << 16)) | 0)
  {
    XorRegroup(h, z << 16, y << 8, x);
    LowLanes(x, y, z);
    DisjointXorIsOr(x, y << 8);
    DisjointXorIsOr(x | (y << 8), z << 16);
    OrZero((x | (y << 8)) | (z << 16));
  }

  lemma XorRegroup(h: bv32, a: bv32, b: bv32, c: bv32)
    ensures ((h ^ a) ^ b) ^ c == h ^ ((c ^ b) ^ a)
  {
  }

  lemma DisjointXorIsOr(x: bv32, y: bv32)
    requires x & y == 0
    ensures x ^ y == x | y
  {
  }

  lemma LowLanes(x: bv32, y: bv32, z: bv32)
    requires x <= 0xff && y <= 0xff
    ensures x & (y << 8) == 0
    ensures (x | (y << 8)) & (z << 16) == 0
  {
  }

  lemma OrZero(x: bv32)
    ensures x | 0 == x
  {
  }
}

/**
 * Worked values of MurmurHashNeutral2 with seed 0, one step at a time:
 * the key "int" (no whole block, a 3-byte tail) and the key "double"
 * (one block and a 2-byte tail), as ASCII bytes.
 */
module MurmurExamples {
  import opened Murmur

  /** "int" is only a tail: `h = 0 ^ 3`, then the three bytes and `h *= m`. */
  lemma TailOfInt()
    ensures Tail(3, [0x69, 0x6e, 0x74]) == 0x0eccbdb2
  {
  }

  lemma AvalancheOfInt()
    ensures Avalanche(0x0eccbdb2) == 0xda41e7a3
  {
  }

  /** The hash of "int" with seed 0. */
  lemma HashOfInt()
    ensures Hash([0x69, 0x6e, 0x74], 0) == 0xda41e7a3
  {
    var key: seq<bv8> := [0x69, 0x6e, 0x74];
    assert Leftover(key) == key;
    assert Blocks(0 ^ (|key| as bv32), key) == 3;
    TailOfInt();
    AvalancheOfInt();
  }

  /** The block "doub" read little-endian. */
  lemma WordOfDoub()
    ensures Word(0x64, 0x6f, 0x75, 0x62) == 0x62756f64
  {
  }

  lemma MixOfDoub()
    ensures MixBlock(0x62756f64) == 0x2ebee70d
  {
  }

  /** The block "doub" folded into `h = 0 ^ 6`. */
  lemma RoundOfDoub()
    ensures Round(6, 0x64, 0x6f, 0x75, 0x62) == 0x08559e73
  {
    WordOfDoub();
    MixOfDoub();
  }

  lemma TailOfLe()
    ensures Tail(0x08559e73, [0x6c, 0x65]) == 0x24e9600b
  {
  }

  lemma AvalancheOfDouble()
    ensures Avalanche(0x24e9600b) == 0xcf4b26d5
  {
  }

  /** The hash of "double" with seed 0. */
  lemma HashOfDouble()
    ensures Hash([0x64, 0x6f, 0x75, 0x62, 0x6c, 0x65], 0) == 0xcf4b26d5
  {
    var key: seq<bv8> := [0x64, 0x6f, 0x75, 0x62, 0x6c, 0x65];
    assert Leftover(key) == [0x6c, 0x65];
    RoundOfDoub();
    assert key[4..] == [0x6c, 0x65];
    assert Blocks(0 ^ (|key| as bv32), key) == 0x08559e73;
    TailOfLe();
    AvalancheOfDouble();
  }

  /** The empty key hashes to the avalanche of the seed alone. */
  lemma HashOfEmpty(seed: bv32)
    ensures Hash([], seed) == Avalanche(seed)
  {
    assert seed ^ (0 as bv32) == seed;
  }
}

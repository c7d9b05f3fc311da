/** The word arithmetic of XXH32 and XXH64 (util/xxhash.c), and the two hashes it yields. */
module XxHashWords {
  import opened XxHash

  /** Bytes read as a little-endian number. */
  function Read(b: seq<Byte>): bv64 {
    if b == [] then 0 else (b[0] as bv64) | (Read(b[1..]) << 8)
  }

  // ----- XXH64 -----

  const PRIME64_1: bv64 := 11400714785074694791
  const PRIME64_2: bv64 := 14029467366897019727
  const PRIME64_3: bv64 := 1609587929392839161
  const PRIME64_4: bv64 := 9650029242287828579
  const PRIME64_5: bv64 := 2870177450012600261

  function Round64(acc: bv64, input: bv64): bv64 {
    (acc + input * PRIME64_2).RotateLeft(31) * PRIME64_1
  }

  function MergeRound64(acc: bv64, val: bv64): bv64 {
    (acc ^ Round64(0, val)) * PRIME64_1 + PRIME64_4
  }

  function Converge64(l: Lanes<bv64>): bv64 {
    var h := l.v1.RotateLeft(1) + l.v2.RotateLeft(7) + l.v3.RotateLeft(12) + l.v4.RotateLeft(18);
    MergeRound64(MergeRound64(MergeRound64(MergeRound64(h, l.v1), l.v2), l.v3), l.v4)
  }

  function Avalanche64(h: bv64): bv64 {
    var a := (h ^ (h >> 33)) * PRIME64_2;
    var b := (a ^ (a >> 29)) * PRIME64_3;
    b ^ (b >> 32)
  }

  function First64(seed: bv64): bv64 { seed + PRIME64_1 + PRIME64_2 }
  function Second64(seed: bv64): bv64 { seed + PRIME64_2 }
  function Fourth64(seed: bv64): bv64 { seed - PRIME64_1 }
  function Short64(seed: bv64): bv64 { seed + PRIME64_5 }
  function AddLength64(h: bv64, n: nat): bv64 { h + ((n % TWO_64) as bv64) }

  function MixWord64(h: bv64, b: seq<Byte>): bv64 {
    (h ^ Round64(0, Read(b))).RotateLeft(27) * PRIME64_1 + PRIME64_4
  }

  function MixHalf64(h: bv64, b: seq<Byte>): bv64 {
    (h ^ (Read(b) * PRIME64_1)).RotateLeft(23) * PRIME64_2 + PRIME64_3
  }

  function MixByte64(h: bv64, b: Byte): bv64 {
    (h ^ ((b as bv64) * PRIME64_5)).RotateLeft(11) * PRIME64_1
  }

  const XXH64: Algorithm<bv64> :=
    Algorithm(8, 4, First64, Second64, Fourth64, Read, Round64, Converge64, Short64, AddLength64,
              MixWord64, MixHalf64, MixByte64, Avalanche64)

  // ----- XXH32 -----

  const PRIME32_1: bv32 := 2654435761
  const PRIME32_2: bv32 := 2246822519
  const PRIME32_3: bv32 := 3266489917
  const PRIME32_4: bv32 := 668265263
  const PRIME32_5: bv32 := 374761393

  function Read32(b: seq<Byte>): bv32 { (Read(b) & 0xFFFF_FFFF) as bv32 }

  function Round32(acc: bv32, input: bv32): bv32 {
    (acc + input * PRIME32_2).RotateLeft(13) * PRIME32_1
  }

  function Converge32(l: Lanes<bv32>): bv32 {
    l.v1.RotateLeft(1) + l.v2.RotateLeft(7) + l.v3.RotateLeft(12) + l.v4.RotateLeft(18)
  }

  function Avalanche32(h: bv32): bv32 {
    var a := (h ^ (h >> 15)) * PRIME32_2;
    var b := (a ^ (a >> 13)) * PRIME32_3;
    b ^ (b >> 16)
  }

  function First32(seed: bv32): bv32 { seed + PRIME32_1 + PRIME32_2 }
  function Second32(seed: bv32): bv32 { seed + PRIME32_2 }
  function Fourth32(seed: bv32): bv32 { seed - PRIME32_1 }
  function Short32(seed: bv32): bv32 { seed + PRIME32_5 }
  function AddLength32(h: bv32, n: nat): bv32 { h + ((n % TWO_32) as bv32) }

  function MixWord32(h: bv32, b: seq<Byte>): bv32 {
    (h + Read32(b) * PRIME32_3).RotateLeft(17) * PRIME32_4
  }

  /** XXH32 has no half-word group. */
  function NoHalf32(h: bv32, b: seq<Byte>): bv32 { h }

  function MixByte32(h: bv32, b: Byte): bv32 {
    (h + (b as bv32) * PRIME32_5).RotateLeft(11) * PRIME32_1
  }

  const XXH32: Algorithm<bv32> :=
    Algorithm(4, 0, First32, Second32, Fourth32, Read32, Round32, Converge32, Short32, AddLength32,
              MixWord32, NoHalf32, MixByte32, Avalanche32)

  // ----- Streaming equals one-shot -----

  /** Both forms of XXH64 on the same bytes, for any seed and any chunking of fewer than 2^64 bytes. */
  method HashBothWays64(seed: bv64, chunks: seq<seq<Byte>>) returns (streamed: bv64, whole: bv64)
    requires |Flatten(chunks)| < TWO_64
    ensures streamed == whole == XXH64.HashOf(seed, Flatten(chunks), TWO_64)
  {
    streamed := Stream64(XXH64, seed, chunks);
    whole := OneShot(XXH64, seed, Flatten(chunks), TWO_64);
  }

  /** Both forms of XXH32 on the same bytes, for any seed and any chunking, past 2^32 bytes included. */
  method HashBothWays32(seed: bv32, chunks: seq<seq<Byte>>) returns (streamed: bv32, whole: bv32)
    ensures streamed == whole == XXH32.HashOf(seed, Flatten(chunks), TWO_32)
  {
    streamed := Stream32(XXH32, seed, chunks);
    whole := OneShot(XXH32, seed, Flatten(chunks), TWO_32);
  }

  /** The published hashes of the empty input, with seed 0 and with the first 32-bit prime for seed. */
  lemma EmptyInput()
    ensures XXH64.HashOf(0, [], TWO_64) == 0xEF46DB3751D8E999
    ensures XXH32.HashOf(0, [], TWO_32) == 0x02CC5D05
    ensures XXH64.HashOf(0x9E3779B1, [], TWO_64) == 0xAC75FDA2929B17EF
    ensures XXH32.HashOf(0x9E3779B1, [], TWO_32) == 0x36B78AE7
  {
    assert XXH64.HashOf(0, [], TWO_64) == Avalanche64(PRIME64_5);
    assert XXH32.HashOf(0, [], TWO_32) == Avalanche32(PRIME32_5);
    assert XXH64.HashOf(0x9E3779B1, [], TWO_64) == Avalanche64(0x27D4EB2FB48DE176);
    assert XXH32.HashOf(0x9E3779B1, [], TWO_32) == Avalanche32(0xB48DE162);
  }

  /** Where the lanes start from that seed. */
  lemma SeededLanes()
    ensures XXH64.InitialLanes(0x9E3779B1) ==
      Lanes(0x60EA27EF4BF82F87, 0xC2B2AE3DC60C6500, 0x000000009E3779B1, 0x61C8864F184BAF2A)
    ensures XXH32.InitialLanes(0x9E3779B1) == Lanes(0xC25ABDD9, 0x24234428, 0x9E3779B1, 0x00000000)
  {
  }
}

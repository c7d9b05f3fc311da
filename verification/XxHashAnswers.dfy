/** Published hashes (xxHash fast digest algorithm) that reach every part of XXH64 and XXH32. */
module XxHashAnswers {
  import opened XxHash
  import opened XxHashWords

  // ----- The text -----

  /** "Call me Ishmael. Some years ago--never mind how long prec", four bytes at a time. */
  function Piece(k: nat): (p: seq<Byte>)
    ensures |p| == 4
  {
    if k == 0 then [67, 97, 108, 108]
    else if k == 1 then [32, 109, 101, 32]
    else if k == 2 then [73, 115, 104, 109]
    else if k == 3 then [97, 101, 108, 46]
    else if k == 4 then [32, 83, 111, 109]
    else if k == 5 then [101, 32, 121, 101]
    else if k == 6 then [97, 114, 115, 32]
    else if k == 7 then [97, 103, 111, 45]
    else if k == 8 then [45, 110, 101, 118]
    else if k == 9 then [101, 114, 32, 109]
    else if k == 10 then [105, 110, 100, 32]
    else if k == 11 then [104, 111, 119, 32]
    else if k == 12 then [108, 111, 110, 103]
    else if k == 13 then [32, 112, 114, 101]
    else [99, 105, 115, 101]
  }

  /** The text from piece `k` on; it ends in "ly-". */
  function From(k: nat): seq<Byte>
    decreases 15 - k
  {
    if k >= 15 then [108, 121, 45] else Piece(k) + From(k + 1)
  }

  /** "Call me Ishmael. Some years ago--never mind how long precisely-" */
  const ISHMAEL: seq<Byte> := From(0)

  // ----- Reading words -----

  lemma {:induction false} ReadFour(a: Byte, b: Byte, c: Byte, d: Byte)
    ensures Read([a, b, c, d]) ==
      (a as bv64) | (((b as bv64) | (((c as bv64) | (((d as bv64) | (0 << 8)) << 8)) << 8)) << 8)
  {
    var s := [a, b, c, d];
    assert s[1..] == [b, c, d] && [b, c, d][1..] == [c, d] && [c, d][1..] == [d] && [d][1..] == [];
  }

  lemma {:induction false} ReadEight(a: Byte, b: Byte, c: Byte, d: Byte, rest: seq<Byte>)
    ensures Read([a, b, c, d] + rest) ==
      (a as bv64) | (((b as bv64) | (((c as bv64) | (((d as bv64) | (Read(rest) << 8)) << 8)) << 8)) << 8)
  {
    var s := [a, b, c, d] + rest;
    assert s[1..] == [b, c, d] + rest && ([b, c, d] + rest)[1..] == [c, d] + rest;
    assert ([c, d] + rest)[1..] == [d] + rest && ([d] + rest)[1..] == rest;
  }

  lemma Piece0()
    ensures Read(Piece(0)) == 0x6C6C6143
  {
    ReadFour(67, 97, 108, 108);
  }

  lemma Piece1()
    ensures Read(Piece(1)) == 0x20656D20
  {
    ReadFour(32, 109, 101, 32);
  }

  lemma Piece2()
    ensures Read(Piece(2)) == 0x6D687349
  {
    ReadFour(73, 115, 104, 109);
  }

  lemma Piece3()
    ensures Read(Piece(3)) == 0x2E6C6561
  {
    ReadFour(97, 101, 108, 46);
  }

  lemma Piece4()
    ensures Read(Piece(4)) == 0x6D6F5320
  {
    ReadFour(32, 83, 111, 109);
  }

  lemma Piece5()
    ensures Read(Piece(5)) == 0x65792065
  {
    ReadFour(101, 32, 121, 101);
  }

  lemma Piece6()
    ensures Read(Piece(6)) == 0x20737261
  {
    ReadFour(97, 114, 115, 32);
  }

  lemma Piece7()
    ensures Read(Piece(7)) == 0x2D6F6761
  {
    ReadFour(97, 103, 111, 45);
  }

  lemma Piece8()
    ensures Read(Piece(8)) == 0x76656E2D
  {
    ReadFour(45, 110, 101, 118);
  }

  lemma Piece9()
    ensures Read(Piece(9)) == 0x6D207265
  {
    ReadFour(101, 114, 32, 109);
  }

  lemma Piece10()
    ensures Read(Piece(10)) == 0x20646E69
  {
    ReadFour(105, 110, 100, 32);
  }

  lemma Piece11()
    ensures Read(Piece(11)) == 0x20776F68
  {
    ReadFour(104, 111, 119, 32);
  }

  lemma Piece12()
    ensures Read(Piece(12)) == 0x676E6F6C
  {
    ReadFour(108, 111, 110, 103);
  }

  lemma Piece13()
    ensures Read(Piece(13)) == 0x65727020
  {
    ReadFour(32, 112, 114, 101);
  }

  lemma Piece14()
    ensures Read(Piece(14)) == 0x65736963
  {
    ReadFour(99, 105, 115, 101);
  }

  lemma Pair0()
    ensures Read(Piece(0) + Piece(1)) == 0x20656D206C6C6143
  {
    Piece1(); ReadEight(67, 97, 108, 108, Piece(1));
  }

  lemma Pair1()
    ensures Read(Piece(2) + Piece(3)) == 0x2E6C65616D687349
  {
    Piece3(); ReadEight(73, 115, 104, 109, Piece(3));
  }

  lemma Pair2()
    ensures Read(Piece(4) + Piece(5)) == 0x657920656D6F5320
  {
    Piece5(); ReadEight(32, 83, 111, 109, Piece(5));
  }

  lemma Pair3()
    ensures Read(Piece(6) + Piece(7)) == 0x2D6F676120737261
  {
    Piece7(); ReadEight(97, 114, 115, 32, Piece(7));
  }

  lemma Pair4()
    ensures Read(Piece(8) + Piece(9)) == 0x6D20726576656E2D
  {
    Piece9(); ReadEight(45, 110, 101, 118, Piece(9));
  }

  lemma Pair5()
    ensures Read(Piece(10) + Piece(11)) == 0x20776F6820646E69
  {
    Piece11(); ReadEight(105, 110, 100, 32, Piece(11));
  }

  lemma Pair6()
    ensures Read(Piece(12) + Piece(13)) == 0x65727020676E6F6C
  {
    Piece13(); ReadEight(108, 111, 110, 103, Piece(13));
  }

  // ----- The text in longer pieces -----

  lemma {:induction false} FromLength(k: nat)
    requires k <= 15
    ensures |From(k)| == 4 * (15 - k) + 3
    decreases 15 - k
  {
    if k < 15 { FromLength(k + 1); }
  }

  function Pair(k: nat): seq<Byte> { Piece(k) + Piece(k + 1) }

  lemma {:induction false} FromPair(k: nat)
    requires k + 2 <= 15
    ensures From(k) == Pair(k) + From(k + 2)
  {
    assert From(k + 1) == Piece(k + 1) + From(k + 2);
  }

  function Four(k: nat): seq<Byte> { Pair(k) + Pair(k + 2) }

  lemma {:induction false} FromFour(k: nat)
    requires k + 4 <= 15
    ensures From(k) == Four(k) + From(k + 4)
  {
    FromPair(k); FromPair(k + 2);
  }

  lemma {:induction false} FromEight(k: nat)
    requires k + 8 <= 15
    ensures From(k) == Four(k) + Four(k + 4) + From(k + 8)
  {
    FromFour(k); FromFour(k + 4);
  }

  // ----- XXH64 -----

  lemma {:induction false} Rounds64()
    ensures Round64(0x60EA27EEADC0B5D6, 0x20656D206C6C6143) == 0x670B8618B3AA2200
    ensures Round64(0xC2B2AE3D27D4EB4F, 0x2E6C65616D687349) == 0xFC3FF3C0203BC028
    ensures Round64(0x0000000000000000, 0x657920656D6F5320) == 0x9677E9E66681D852
    ensures Round64(0x61C8864E7A143579, 0x2D6F676120737261) == 0xDA7D9AAFD0C02036
  {
  }

  lemma {:induction false} Initial64()
    ensures XXH64.InitialLanes(0) ==
      Lanes(0x60EA27EEADC0B5D6, 0xC2B2AE3D27D4EB4F, 0x0000000000000000, 0x61C8864E7A143579)
  {
  }

  lemma {:induction false} Lanes64()
    ensures XXH64.ConsumeStripe(XXH64.InitialLanes(0), Four(0) + Four(4)) ==
      Lanes(0x670B8618B3AA2200, 0xFC3FF3C0203BC028, 0x9677E9E66681D852, 0xDA7D9AAFD0C02036)
  {
    Initial64();
    FourWords(XXH64, XXH64.InitialLanes(0), Pair(0), Pair(2), Pair(4), Pair(6));
    Pair0(); Pair1(); Pair2(); Pair3();
    Rounds64();
  }

  lemma {:induction false} Converged64()
    ensures Converge64(Lanes(0x670B8618B3AA2200, 0xFC3FF3C0203BC028, 0x9677E9E66681D852, 0xDA7D9AAFD0C02036))
      == 0xB89F94801D165F2A
  {
    assert MergeRound64(0xD76E95AA2394EBDB, 0x670B8618B3AA2200) == 0xD9CECBCFAB49C481;
    assert MergeRound64(0xD9CECBCFAB49C481, 0xFC3FF3C0203BC028) == 0x6EE1A8BEE73B84E1;
    assert MergeRound64(0x6EE1A8BEE73B84E1, 0x9677E9E66681D852) == 0x96B73AAB55D70966;
    assert MergeRound64(0x96B73AAB55D70966, 0xDA7D9AAFD0C02036) == 0xB89F94801D165F2A;
  }

  lemma {:induction false} Words64()
    ensures XXH64.Tail(0xB89F94801D165F69, From(8)) == XXH64.Tail(0xE2E40EBEA20F90FF, From(14))
  {
    FromPair(8); FromPair(10); FromPair(12);
    Pair4(); Pair5(); Pair6();
    assert MixWord64(0xB89F94801D165F69, Pair(8)) == 0x0C718C0CF5EC8337;
    TailWord(XXH64, 0xB89F94801D165F69, Pair(8), From(10));
    assert MixWord64(0x0C718C0CF5EC8337, Pair(10)) == 0xDDA50D5890EEF8D0;
    TailWord(XXH64, 0x0C718C0CF5EC8337, Pair(10), From(12));
    assert MixWord64(0xDDA50D5890EEF8D0, Pair(12)) == 0xE2E40EBEA20F90FF;
    TailWord(XXH64, 0xDDA50D5890EEF8D0, Pair(12), From(14));
  }

  lemma {:induction false} Rest64()
    ensures XXH64.Tail(0xE2E40EBEA20F90FF, From(14)) == 0x7166E938EA5418D0
  {
    assert From(14) == Piece(14) + [108, 121, 45];
    Piece14();
    assert MixHalf64(0xE2E40EBEA20F90FF, Piece(14)) == 0x2BCA5F8585968679;
    TailHalf(XXH64, 0xE2E40EBEA20F90FF, Piece(14), [108, 121, 45]);
    LastThree(XXH64, 0x2BCA5F8585968679, 108, 121, 45);
    assert MixByte64(0x2BCA5F8585968679, 108) == 0x165849E44031C250;
    assert MixByte64(0x165849E44031C250, 121) == 0x9669659C916E30C9;
    assert MixByte64(0x9669659C916E30C9, 45) == 0x7166E938EA5418D0;
  }

  lemma {:induction false} Finished64()
    ensures XXH64.Finish(0xB89F94801D165F2A, 63, From(8)) == 0x02A2E85470D6FD96
  {
    assert AddLength64(0xB89F94801D165F2A, 63) == 0xB89F94801D165F69;
    Words64(); Rest64();
    assert Avalanche64(0x7166E938EA5418D0) == 0x02A2E85470D6FD96;
  }

  /** One stripe, three words, a half word and three bytes. */
  lemma {:induction false} Ishmael64()
    ensures XXH64.HashOf(0, ISHMAEL, TWO_64) == 0x02A2E85470D6FD96
  {
    var stripe, l := Four(0) + Four(4), XXH64.InitialLanes(0);
    FromLength(0); FromLength(8); FromEight(0);
    StripesFront(XXH64, l, stripe, From(8));
    Lanes64(); Converged64(); Finished64();
    assert XXH64.Stripes(l, ISHMAEL) == XXH64.ConsumeStripe(l, stripe);
    assert XXH64.Leftover(ISHMAEL) == From(8);
  }

  // ----- XXH32 -----

  lemma {:induction false} Stripe32At0()
    ensures XXH32.ConsumeStripe(Lanes(0x24234428, 0x85EBCA77, 0x00000000, 0x61C8864F), Four(0)) ==
      Lanes(0x6AFD1158, 0x55B127E1, 0x6BC16FA1, 0x9FEDFA86)
  {
    FourWords(XXH32, Lanes(0x24234428, 0x85EBCA77, 0x00000000, 0x61C8864F),
              Piece(0), Piece(1), Piece(2), Piece(3));
    Piece0(); Piece1(); Piece2(); Piece3();
    Rounds32At0();
  }

  lemma {:induction false} Rounds32At0()
    ensures Round32(0x24234428, 0x6C6C6143) == 0x6AFD1158
    ensures Round32(0x85EBCA77, 0x20656D20) == 0x55B127E1
    ensures Round32(0x00000000, 0x6D687349) == 0x6BC16FA1
    ensures Round32(0x61C8864F, 0x2E6C6561) == 0x9FEDFA86
  {
  }

  lemma {:induction false} Stripe32At4()
    ensures XXH32.ConsumeStripe(Lanes(0x6AFD1158, 0x55B127E1, 0x6BC16FA1, 0x9FEDFA86), Four(4)) ==
      Lanes(0xC13FA116, 0x38B3F2C8, 0x9E93F2D6, 0x87CE550A)
  {
    FourWords(XXH32, Lanes(0x6AFD1158, 0x55B127E1, 0x6BC16FA1, 0x9FEDFA86),
              Piece(4), Piece(5), Piece(6), Piece(7));
    Piece4(); Piece5(); Piece6(); Piece7();
    Rounds32At4();
  }

  lemma {:induction false} Rounds32At4()
    ensures Round32(0x6AFD1158, 0x6D6F5320) == 0xC13FA116
    ensures Round32(0x55B127E1, 0x65792065) == 0x38B3F2C8
    ensures Round32(0x6BC16FA1, 0x20737261) == 0x9E93F2D6
    ensures Round32(0x9FEDFA86, 0x2D6F6761) == 0x87CE550A
  {
  }

  lemma {:induction false} Stripe32At8()
    ensures XXH32.ConsumeStripe(Lanes(0xC13FA116, 0x38B3F2C8, 0x9E93F2D6, 0x87CE550A), Four(8)) ==
      Lanes(0x6E1706B4, 0x59567998, 0x281FA4F8, 0x218C6056)
  {
    FourWords(XXH32, Lanes(0xC13FA116, 0x38B3F2C8, 0x9E93F2D6, 0x87CE550A),
              Piece(8), Piece(9), Piece(10), Piece(11));
    Piece8(); Piece9(); Piece10(); Piece11();
    Rounds32At8();
  }

  lemma {:induction false} Rounds32At8()
    ensures Round32(0xC13FA116, 0x76656E2D) == 0x6E1706B4
    ensures Round32(0x38B3F2C8, 0x6D207265) == 0x59567998
    ensures Round32(0x9E93F2D6, 0x20646E69) == 0x281FA4F8
    ensures Round32(0x87CE550A, 0x20776F68) == 0x218C6056
  {
  }

  lemma {:induction false} Stripes32()
    ensures XXH32.Stripes(XXH32.InitialLanes(0), ISHMAEL) == Lanes(0x6E1706B4, 0x59567998, 0x281FA4F8, 0x218C6056)
    ensures XXH32.Leftover(ISHMAEL) == From(12)
  {
    assert XXH32.InitialLanes(0) == Lanes(0x24234428, 0x85EBCA77, 0x00000000, 0x61C8864F);
    FromFour(0); FromFour(4); FromFour(8); FromLength(12);
    Stripe32At0(); Stripe32At4(); Stripe32At8();
    StripesFront(XXH32, Lanes(0x24234428, 0x85EBCA77, 0x00000000, 0x61C8864F), Four(0), From(4));
    StripesFront(XXH32, Lanes(0x6AFD1158, 0x55B127E1, 0x6BC16FA1, 0x9FEDFA86), Four(4), From(8));
    StripesFront(XXH32, Lanes(0xC13FA116, 0x38B3F2C8, 0x9E93F2D6, 0x87CE550A), Four(8), From(12));
  }

  lemma {:induction false} Finished32()
    ensures XXH32.Finish(0x0312E246, 63, From(12)) == 0x6F320359
  {
    assert AddLength32(0x0312E246, 63) == 0x0312E285;
    Words32();
    LastThree(XXH32, 0xEEE27859, 108, 121, 45);
    assert MixByte32(0xEEE27859, 108) == 0xAD6CAABA;
    assert MixByte32(0xAD6CAABA, 121) == 0x01D6B742;
    assert MixByte32(0x01D6B742, 45) == 0x0CA259F8;
    assert Avalanche32(0x0CA259F8) == 0x6F320359;
  }

  lemma {:induction false} Words32()
    ensures XXH32.Tail(0x0312E285, From(12)) == XXH32.Tail(0xEEE27859, [108, 121, 45])
  {
    Piece12(); Piece13(); Piece14();
    assert MixWord32(0x0312E285, Piece(12)) == 0x4E0F7103;
    TailWord(XXH32, 0x0312E285, Piece(12), From(13));
    assert MixWord32(0x4E0F7103, Piece(13)) == 0xFE844AFD;
    TailWord(XXH32, 0x4E0F7103, Piece(13), From(14));
    assert MixWord32(0xFE844AFD, Piece(14)) == 0xEEE27859;
    TailWord(XXH32, 0xFE844AFD, Piece(14), From(15));
  }

  /** Three stripes, three words and three bytes. */
  lemma {:induction false} Ishmael32()
    ensures XXH32.HashOf(0, ISHMAEL, TWO_32) == 0x6F320359
  {
    FromLength(0);
    Stripes32();
    assert Converge32(Lanes(0x6E1706B4, 0x59567998, 0x281FA4F8, 0x218C6056)) == 0x0312E246;
    Finished32();
  }

  // ----- Short inputs -----

  /** "a" */
  lemma {:induction false} A64()
    ensures XXH64.HashOf(0, [97], TWO_64) == 0xD24EC4F1A98C6E5B
  {
    assert [97] == [97] + [];
    TailByte(XXH64, 0x27D4EB2F165667C6, 97, []);
    assert AddLength64(PRIME64_5, 1) == 0x27D4EB2F165667C6;
    assert MixByte64(0x27D4EB2F165667C6, 97) == 0xB86597E419D4D215;
    assert Avalanche64(0xB86597E419D4D215) == 0xD24EC4F1A98C6E5B;
  }

  /** "abcdefgh" */
  lemma {:induction false} Alphabet64()
    ensures XXH64.HashOf(0, [97, 98, 99, 100] + [101, 102, 103, 104], TWO_64) == 0x3AD351775B4634B7
  {
    var w := [97, 98, 99, 100] + [101, 102, 103, 104];
    AlphabetWord();
    assert w == w + [];
    TailWord(XXH64, 0x27D4EB2F165667CD, w, []);
    assert AddLength64(PRIME64_5, 8) == 0x27D4EB2F165667CD;
    assert MixWord64(0x27D4EB2F165667CD, w) == 0xA119981D165AD1DF;
    assert Avalanche64(0xA119981D165AD1DF) == 0x3AD351775B4634B7;
  }

  lemma {:induction false} AlphabetWord()
    ensures Read([97, 98, 99, 100] + [101, 102, 103, 104]) == 0x6867666564636261
  {
    ReadFour(101, 102, 103, 104);
    ReadEight(97, 98, 99, 100, [101, 102, 103, 104]);
  }

  /** "abc" */
  lemma {:induction false} Abc32()
    ensures XXH32.HashOf(0, [97, 98, 99], TWO_32) == 0x32D153FF
  {
    LastThree(XXH32, 0x165667B4, 97, 98, 99);
    assert AddLength32(PRIME32_5, 3) == 0x165667B4;
    assert MixByte32(0x165667B4, 97) == 0xDCA1DBE8;
    assert MixByte32(0xDCA1DBE8, 98) == 0x4F80FD3D;
    assert MixByte32(0x4F80FD3D, 99) == 0x760A1E67;
    assert Avalanche32(0x760A1E67) == 0x32D153FF;
  }

}

/**
 Known answers of the standards: the digest of "abc" (FIPS 180), and the authentication code of
 test case 2 of section 3 of RFC 2202.
 */
module KnownAnswers {
  import opened Words
  import opened Sha1
  import opened Hmac
  import opened Sha1Rows

  // ----- the padded message "abc" -----

  const ABC_0 :=
    Row(0x61626380, 0x00000000, 0x00000000, 0x00000000, 0x00000000, 0x00000000, 0x00000000, 0x00000000,
        0x00000000, 0x00000000, 0x00000000, 0x00000000, 0x00000000, 0x00000000, 0x00000000, 0x00000018)
  const ABC_1 :=
    Row(0xc2c4c700, 0x00000000, 0x00000030, 0x85898e01, 0x00000000, 0x00000060, 0x0b131c03, 0x00000030,
        0x85898ec1, 0x16263806, 0x00000000, 0x00000180, 0x2c4c700c, 0x000000f0, 0x93afb507, 0x5898e048)
  const ABC_2 :=
    Row(0x8e9a9202, 0x00000600, 0xb131c0f0, 0x16263bc6, 0x4ebed41e, 0x626380a1, 0x16263806, 0x000018c0,
        0xd2e138c4, 0x00000f00, 0x3afb5079, 0x898e04e5, 0xe2ba3c2b, 0x000060c0, 0x053a37cd, 0x74458547)
  const ABC_3 :=
    Row(0xda9415ed, 0x26380a16, 0x626383a1, 0x4ebf54de, 0x3835b44b, 0x0000f600, 0x1e84c7a3, 0x98e04d98,
        0x651d16a0, 0x62658ca1, 0x458544d6, 0x44584cb7, 0x7ba06619, 0x6380aea2, 0x0ae55269, 0x627b49a1)
  const ABC_4 :=
    Row(0x7cd45c9d, 0x000f0000, 0xfb50753a, 0xec6765e8, 0xba3c2be2, 0x0060c000, 0x3a37cd05, 0x458546f4,
        0xb8599dd6, 0x380a1a26, 0x01e02203, 0xe7cc3456, 0xe6e60b69, 0x00f60a00, 0x5795ef4f, 0x822e0879)

  const ABC_V1 := Vars(0x20bdd62f, 0x196bee77, 0x644a3da5, 0x1181ed99, 0x18c623f9)
  const ABC_V2 := Vars(0x3b845d33, 0x1267b407, 0x717eebd7, 0xa0dc2d4b, 0xd2aa1365)
  const ABC_V3 := Vars(0xbead02ca, 0xa01b846c, 0x8714787c, 0x503ca382, 0xfb86c6ab)
  const ABC_V4 := Vars(0x6b61c9e1, 0xb66c020b, 0x9523272c, 0xf5d5b051, 0x8fd4b796)
  const ABC_V5 := Vars(0x42541b35, 0x5738d5e1, 0x21834873, 0x681e6df6, 0xd8fdf6ad)
  const ABC_HASH := Vars(0xa9993e36, 0x4706816a, 0xba3e2571, 0x7850c26c, 0x9cd0d89d)

  lemma AbcWords0()
    ensures Follows(ABC_0, ABC_1)
  {
    assert Words0(ABC_0, ABC_1);
    assert Words4(ABC_0, ABC_1);
    assert Words8(ABC_0, ABC_1);
  }

  lemma Abc0()
    ensures RowOfRounds(H0, 0, ABC_0) == ABC_V1
  {}

  lemma Abc1()
    ensures RowOfRounds(ABC_V1, 16, ABC_1) == ABC_V2 && Follows(ABC_1, ABC_2)
  {}

  lemma Abc2()
    ensures RowOfRounds(ABC_V2, 32, ABC_2) == ABC_V3 && Follows(ABC_2, ABC_3)
  {}

  lemma Abc3()
    ensures RowOfRounds(ABC_V3, 48, ABC_3) == ABC_V4 && Follows(ABC_3, ABC_4)
  {}

  lemma Abc4()
    ensures RowOfRounds(ABC_V4, 64, ABC_4) == ABC_V5 && Add(H0, ABC_V5) == ABC_HASH
  {}

  lemma AbcBlock()
    ensures Compress(H0, Spell(ABC_0)) == ABC_HASH
  {
    hide Follows, RowOfRounds, Compress, Add, Spell, RowAt;
    AbcWords0();
    Abc0();
    Abc1();
    Abc2();
    Abc3();
    Abc4();
    FirstRow(ABC_0);
    BlockByRows(H0, Spell(ABC_0), ABC_0, ABC_1, ABC_2, ABC_3, ABC_4);
  }

  // ----- the key "Jefe", masked for the inner hash -----

  const INNER_KEY_0 :=
    Row(0x7c535053, 0x36363636, 0x36363636, 0x36363636, 0x36363636, 0x36363636, 0x36363636, 0x36363636,
        0x36363636, 0x36363636, 0x36363636, 0x36363636, 0x36363636, 0x36363636, 0x36363636, 0x36363636)
  const INNER_KEY_1 :=
    Row(0x94caccca, 0x00000000, 0x00000000, 0x45f9f5f9, 0x6c6c6c6c, 0x6c6c6c6c, 0xe79f879e, 0xb4b4b4b4,
        0xf14d414d, 0xcf3f0f3d, 0x69696969, 0x69696969, 0x46a6c6a3, 0x0a0a0a0a, 0x58142816, 0x88488843)
  const INNER_KEY_2 :=
    Row(0xdf1b0f1a, 0xa5a5a5a5, 0x1a9b1a8d, 0x3fcfffcd, 0xd1e111e8, 0x909390bf, 0xe2122210, 0x44444444,
        0xaf596f03, 0xc3c3c3c3, 0xe221e206, 0xe7ebe75b, 0x1920793c, 0xe1e1e1e1, 0x05edc48f, 0xe112213c)
  const INNER_KEY_3 :=
    Row(0x167136eb, 0xb888ba48, 0x909390bf, 0xbd8d7d84, 0x24b7e119, 0x4b4b4b4b, 0xea57e831, 0x84448f44,
        0x2085e14a, 0xedeeedc2, 0xdfad0983, 0x360534e9, 0xab2962d1, 0x282b042b, 0x9f9c5d79, 0xedeeedc2)
  const INNER_KEY_4 :=
    Row(0x1c98866b, 0xeeeeeeee, 0x0ccf2bcf, 0xb8b7089b, 0x164f0a2f, 0xd7d7d7d7, 0xdbf2b933, 0x24170ad7,
        0x68cf72ea, 0xddef1ded, 0xb8b89494, 0x9cac9567, 0xfe2a50d5, 0x55555555, 0x88b5ee8d, 0xb27ab25d)

  const INNER_KEY_V1 := Vars(0x6c301692, 0x579d7f38, 0xdb9d8cb4, 0x61e12473, 0xed625512)
  const INNER_KEY_V2 := Vars(0x0c2f2726, 0xb08cda1c, 0x315cd561, 0x23e29bdd, 0xed70ccac)
  const INNER_KEY_V3 := Vars(0xe6dd707e, 0xd3b4ba55, 0x86199b16, 0x3ab7d9d8, 0x55d1da2f)
  const INNER_KEY_V4 := Vars(0xe231fdd2, 0x985ce8a7, 0x94a1cdd0, 0x3ca86e86, 0x8ad04fb6)
  const INNER_KEY_V5 := Vars(0xfb086ba6, 0x4f5d6c7a, 0xfc99dce6, 0x188e117f, 0xe629d79e)
  const INNER_KEYED := Vars(0x624d8ea7, 0x3f2b1803, 0x9554b9e4, 0x28c065f5, 0xa9fcb98e)

  lemma InnerKey0()
    ensures RowOfRounds(H0, 0, INNER_KEY_0) == INNER_KEY_V1 && Follows(INNER_KEY_0, INNER_KEY_1)
  {}

  lemma InnerKey1()
    ensures RowOfRounds(INNER_KEY_V1, 16, INNER_KEY_1) == INNER_KEY_V2 && Follows(INNER_KEY_1, INNER_KEY_2)
  {}

  lemma InnerKey2()
    ensures RowOfRounds(INNER_KEY_V2, 32, INNER_KEY_2) == INNER_KEY_V3 && Follows(INNER_KEY_2, INNER_KEY_3)
  {}

  lemma InnerKey3()
    ensures RowOfRounds(INNER_KEY_V3, 48, INNER_KEY_3) == INNER_KEY_V4 && Follows(INNER_KEY_3, INNER_KEY_4)
  {}

  lemma InnerKey4()
    ensures RowOfRounds(INNER_KEY_V4, 64, INNER_KEY_4) == INNER_KEY_V5 && Add(H0, INNER_KEY_V5) == INNER_KEYED
  {}

  lemma InnerKeyBlock()
    ensures Compress(H0, Spell(INNER_KEY_0)) == INNER_KEYED
  {
    hide Follows, RowOfRounds, Compress, Add, Spell, RowAt;
    InnerKey0();
    InnerKey1();
    InnerKey2();
    InnerKey3();
    InnerKey4();
    FirstRow(INNER_KEY_0);
    BlockByRows(H0, Spell(INNER_KEY_0), INNER_KEY_0, INNER_KEY_1, INNER_KEY_2, INNER_KEY_3, INNER_KEY_4);
  }

  // ----- the text "what do ya want for nothing?", padded -----

  const INNER_TEXT_0 :=
    Row(0x77686174, 0x20646f20, 0x79612077, 0x616e7420, 0x666f7220, 0x6e6f7468, 0x696e673f, 0x80000000,
        0x00000000, 0x00000000, 0x00000000, 0x00000000, 0x00000000, 0x00000000, 0x00000000, 0x000002e0)
  const INNER_TEXT_1 :=
    Row(0x1c128206, 0x82143600, 0x3e1ca16e, 0x2627049c, 0x1a2a463f, 0xa0e7aa0d, 0x9e92c746, 0x345489bf,
        0x79ea5017, 0x390de28c, 0x149051a2, 0xbf9aa916, 0x464f4966, 0x68eff29f, 0x7a35d8ac, 0xe01fe873)
  const INNER_TEXT_2 :=
    Row(0x661703c0, 0xce161179, 0xa172bd01, 0xbe9a088e, 0x19c3b2cc, 0xba5cd858, 0x47ae8ee6, 0xe90a6319,
        0x6263b45b, 0x1e5fa80a, 0x354f8db8, 0x1719ceb8, 0x77cd1618, 0x0fc69e18, 0x992b3664, 0x619d1817)
  const INNER_TEXT_3 :=
    Row(0x55812905, 0xeff10f33, 0xd8c734c5, 0x8cbc6ed6, 0x8ca24a03, 0x08ae2339, 0x60b4c41e, 0x34d5320e,
        0x140667be, 0x0c075b3f, 0x5d213ad7, 0x00cab391, 0xdc866280, 0x77a93fc2, 0x59a8d1dd, 0xcc7e8f54)
  const INNER_TEXT_4 :=
    Row(0xddd28b79, 0x6dc5d60e, 0x8a75968b, 0xb214ea0e, 0xbaaa7526, 0x834f70fd, 0x3e1d30e7, 0x9c0d2686,
        0x2f754dda, 0xbe2a1c8e, 0x2fbfd0b5, 0xd404570f, 0x035db5eb, 0x2e4e21bc, 0xdcc67a98, 0x7dd7946e)

  const INNER_TEXT_V1 := Vars(0xa12b746a, 0x6755bf04, 0x8d7768f0, 0xe5ae6791, 0xa333414b)
  const INNER_TEXT_V2 := Vars(0xc7719700, 0x1b1d78ca, 0x09aad6e3, 0x2f73e26b, 0x2deb05ab)
  const INNER_TEXT_V3 := Vars(0xf783cc7f, 0xfb36762f, 0xc507bd2f, 0x61544c0d, 0x406394e5)
  const INNER_TEXT_V4 := Vars(0x5c633025, 0xe824555e, 0xbeb07948, 0xbb29dc4b, 0xfd46d861)
  const INNER_TEXT_V5 := Vars(0x3637839d, 0xfbce0454, 0x0e3828f8, 0x660321a1, 0xc20c2536)
  const INNER_HASH := Vars(0x98851244, 0x3af91c57, 0xa38ce2dc, 0x8ec38796, 0x6c08dec4)

  lemma InnerText0()
    ensures RowOfRounds(INNER_KEYED, 0, INNER_TEXT_0) == INNER_TEXT_V1 && Follows(INNER_TEXT_0, INNER_TEXT_1)
  {}

  lemma InnerText1()
    ensures RowOfRounds(INNER_TEXT_V1, 16, INNER_TEXT_1) == INNER_TEXT_V2 && Follows(INNER_TEXT_1, INNER_TEXT_2)
  {}

  lemma InnerText2()
    ensures RowOfRounds(INNER_TEXT_V2, 32, INNER_TEXT_2) == INNER_TEXT_V3 && Follows(INNER_TEXT_2, INNER_TEXT_3)
  {}

  lemma InnerText3()
    ensures RowOfRounds(INNER_TEXT_V3, 48, INNER_TEXT_3) == INNER_TEXT_V4 && Follows(INNER_TEXT_3, INNER_TEXT_4)
  {}

  lemma InnerText4()
    ensures RowOfRounds(INNER_TEXT_V4, 64, INNER_TEXT_4) == INNER_TEXT_V5
    ensures Add(INNER_KEYED, INNER_TEXT_V5) == INNER_HASH
  {}

  lemma InnerTextBlock()
    ensures Compress(INNER_KEYED, Spell(INNER_TEXT_0)) == INNER_HASH
  {
    hide Follows, RowOfRounds, Compress, Add, Spell, RowAt;
    InnerText0();
    InnerText1();
    InnerText2();
    InnerText3();
    InnerText4();
    FirstRow(INNER_TEXT_0);
    BlockByRows(INNER_KEYED, Spell(INNER_TEXT_0), INNER_TEXT_0, INNER_TEXT_1, INNER_TEXT_2, INNER_TEXT_3, INNER_TEXT_4);
  }

  // ----- the key, masked for the outer hash -----

  const OUTER_KEY_0 :=
    Row(0x16393a39, 0x5c5c5c5c, 0x5c5c5c5c, 0x5c5c5c5c, 0x5c5c5c5c, 0x5c5c5c5c, 0x5c5c5c5c, 0x5c5c5c5c,
        0x5c5c5c5c, 0x5c5c5c5c, 0x5c5c5c5c, 0x5c5c5c5c, 0x5c5c5c5c, 0x5c5c5c5c, 0x5c5c5c5c, 0x5c5c5c5c)
  const OUTER_KEY_1 :=
    Row(0x94caccca, 0x00000000, 0x00000000, 0x912d212d, 0xb8b8b8b8, 0xb8b8b8b8, 0x9ae2fae3, 0xc9c9c9c9,
        0x58e4e8e4, 0x35c5f5c7, 0x93939393, 0x93939393, 0x1afa9aff, 0x56565656, 0x83cff3cd, 0x1ede1ed5)
  const OUTER_KEY_2 :=
    Row(0x34f0e4f1, 0x4e4e4e4e, 0x6bea6bfc, 0x1dedddef, 0xeddd2dd4, 0x999a99b6, 0xb848784a, 0x1e1e1e1e,
        0xcc3a0c60, 0xa0a0a0a0, 0xf93af91d, 0x28242894, 0xa891c88d, 0x50505050, 0x4ea68fc4, 0xcc3f0c11)
  const OUTER_KEY_3 :=
    Row(0x86e1a67b, 0x7b4b798b, 0x66656649, 0x5565956c, 0x0c9fc931, 0x63636363, 0xdf62dd04, 0xfc3cf73c,
        0xa10460cb, 0x595a5976, 0x97e541cb, 0x182b1ac7, 0x67e5ae1d, 0xd1d2fdd2, 0x1e1ddcf8, 0x595a5976)
  const OUTER_KEY_4 :=
    Row(0x20a4ba57, 0xd2d2d2d2, 0x488b6f8b, 0x1d12ad3e, 0xcd94d1f4, 0x0c0c0c0c, 0xfad39812, 0x63504d90,
        0x34932eb6, 0xd2e012e2, 0xb7b79b9b, 0xc0f0c93b, 0xcd1963e6, 0x66666666, 0x09346f0c, 0x4b834ba4)

  const OUTER_KEY_V1 := Vars(0x373946eb, 0x892fc8f9, 0xc6551936, 0x8a847eb1, 0x4c8d4aa6)
  const OUTER_KEY_V2 := Vars(0xebc09a0d, 0xe5a4f04e, 0x672569ee, 0x684ae099, 0xd692a097)
  const OUTER_KEY_V3 := Vars(0xb227c5ed, 0xde5586a4, 0x39d09a64, 0xa874c2ef, 0x5b433b27)
  const OUTER_KEY_V4 := Vars(0xe08c1f8e, 0x7086ae3f, 0xea81e93e, 0x69719b10, 0x92a3aea5)
  const OUTER_KEY_V5 := Vars(0xb9431429, 0x05386518, 0x5f74ae07, 0x7e19a9bc, 0x64386c45)
  const OUTER_KEYED := Vars(0x2088372a, 0xf50610a1, 0xf82f8b05, 0x8e4bfe32, 0x280b4e35)

  lemma OuterKey0()
    ensures RowOfRounds(H0, 0, OUTER_KEY_0) == OUTER_KEY_V1 && Follows(OUTER_KEY_0, OUTER_KEY_1)
  {}

  lemma OuterKey1()
    ensures RowOfRounds(OUTER_KEY_V1, 16, OUTER_KEY_1) == OUTER_KEY_V2 && Follows(OUTER_KEY_1, OUTER_KEY_2)
  {}

  lemma OuterKey2()
    ensures RowOfRounds(OUTER_KEY_V2, 32, OUTER_KEY_2) == OUTER_KEY_V3 && Follows(OUTER_KEY_2, OUTER_KEY_3)
  {}

  lemma OuterKey3()
    ensures RowOfRounds(OUTER_KEY_V3, 48, OUTER_KEY_3) == OUTER_KEY_V4 && Follows(OUTER_KEY_3, OUTER_KEY_4)
  {}

  lemma OuterKey4()
    ensures RowOfRounds(OUTER_KEY_V4, 64, OUTER_KEY_4) == OUTER_KEY_V5 && Add(H0, OUTER_KEY_V5) == OUTER_KEYED
  {}

  lemma OuterKeyBlock()
    ensures Compress(H0, Spell(OUTER_KEY_0)) == OUTER_KEYED
  {
    hide Follows, RowOfRounds, Compress, Add, Spell, RowAt;
    OuterKey0();
    OuterKey1();
    OuterKey2();
    OuterKey3();
    OuterKey4();
    FirstRow(OUTER_KEY_0);
    BlockByRows(H0, Spell(OUTER_KEY_0), OUTER_KEY_0, OUTER_KEY_1, OUTER_KEY_2, OUTER_KEY_3, OUTER_KEY_4);
  }

  // ----- the inner digest, padded -----

  const OUTER_TEXT_0 :=
    Row(0x98851244, 0x3af91c57, 0xa38ce2dc, 0x8ec38796, 0x6c08dec4, 0x80000000, 0x00000000, 0x00000000,
        0x00000000, 0x00000000, 0x00000000, 0x00000000, 0x00000000, 0x00000000, 0x00000000, 0x000002a0)
  const OUTER_TEXT_1 :=
    Row(0x7613e130, 0x68753783, 0x9f087d71, 0xf1a0cd4c, 0x08fbd28e, 0x3e10fae2, 0xe3419a99, 0x11f7a05c,
        0x900637a4, 0x16695a35, 0x1dffba5b, 0xc34df5d0, 0x3d251176, 0x47de8432, 0xac3f1cf2, 0x894f0812)
  const OUTER_TEXT_2 :=
    Row(0x7d865fae, 0x47077810, 0x06863b6c, 0xe2f73ba0, 0x233042e3, 0xdd7fcbc0, 0x7b1f14de, 0x5bc36131,
        0x5a003322, 0xd2798657, 0xfb3fe2e0, 0x78c8f2c0, 0xc0a79260, 0xd1a34a01, 0xa4dd4a85, 0xaa5906a6)
  const OUTER_TEXT_3 :=
    Row(0xe1463bc3, 0xa6a91ec5, 0xe9a13b92, 0x4c0c72c7, 0x7c43b530, 0x7d7db6c5, 0x939c3f7d, 0xbf40a9e0,
        0x7a08b988, 0x3f08aa5f, 0xdaf3c5e4, 0x3edee71d, 0x4e638f14, 0xb8e87f0d, 0xd1b3524d, 0xfba67d2f)
  const OUTER_TEXT_4 :=
    Row(0x940f8da9, 0x083d2820, 0x696e6cd3, 0x37415d6d, 0x53025af3, 0x277619f6, 0x1ecd13aa, 0x51d848c6,
        0x2705d066, 0x2e4ced90, 0x584cddcb, 0x2ce42a37, 0xc53cd475, 0x78e98c3e, 0xef2bccf2, 0xceff9378)

  const OUTER_TEXT_V1 := Vars(0x0915ddce, 0xe7f5bb49, 0xc60a0266, 0x18ab2ff0, 0x6cebbf4d)
  const OUTER_TEXT_V2 := Vars(0x98ecda1a, 0xc2d0f752, 0x9846f2f1, 0x61d091d2, 0x2d4be5b6)
  const OUTER_TEXT_V3 := Vars(0xbe5e2ce8, 0x7e450bfd, 0xf293cb68, 0x07cce79a, 0x1c6d9281)
  const OUTER_TEXT_V4 := Vars(0xcf69b90c, 0x88c8c156, 0x3c6521b7, 0x4c8fb7a3, 0x5c676f55)
  const OUTER_TEXT_V5 := Vars(0xcf74a840, 0xf0e51f01, 0xda448bd0, 0x6338e16a, 0xfd8f2e44)
  const OUTER_HASH := Vars(0xeffcdf6a, 0xe5eb2fa2, 0xd27416d5, 0xf184df9c, 0x259a7c79)

  lemma OuterText0()
    ensures RowOfRounds(OUTER_KEYED, 0, OUTER_TEXT_0) == OUTER_TEXT_V1 && Follows(OUTER_TEXT_0, OUTER_TEXT_1)
  {}

  lemma OuterText1()
    ensures RowOfRounds(OUTER_TEXT_V1, 16, OUTER_TEXT_1) == OUTER_TEXT_V2 && Follows(OUTER_TEXT_1, OUTER_TEXT_2)
  {}

  lemma OuterText2()
    ensures RowOfRounds(OUTER_TEXT_V2, 32, OUTER_TEXT_2) == OUTER_TEXT_V3 && Follows(OUTER_TEXT_2, OUTER_TEXT_3)
  {}

  lemma OuterText3()
    ensures RowOfRounds(OUTER_TEXT_V3, 48, OUTER_TEXT_3) == OUTER_TEXT_V4 && Follows(OUTER_TEXT_3, OUTER_TEXT_4)
  {}

  lemma OuterText4()
    ensures RowOfRounds(OUTER_TEXT_V4, 64, OUTER_TEXT_4) == OUTER_TEXT_V5
    ensures Add(OUTER_KEYED, OUTER_TEXT_V5) == OUTER_HASH
  {}

  lemma OuterTextBlock()
    ensures Compress(OUTER_KEYED, Spell(OUTER_TEXT_0)) == OUTER_HASH
  {
    hide Follows, RowOfRounds, Compress, Add, Spell, RowAt;
    OuterText0();
    OuterText1();
    OuterText2();
    OuterText3();
    OuterText4();
    FirstRow(OUTER_TEXT_0);
    BlockByRows(OUTER_KEYED, Spell(OUTER_TEXT_0), OUTER_TEXT_0, OUTER_TEXT_1, OUTER_TEXT_2, OUTER_TEXT_3, OUTER_TEXT_4);
  }

  // ----- the answers -----

  const ABC_TEXT: seq<byte> := [0x61, 0x62, 0x63]

  lemma FourZeros()
    ensures SpellFour(0, 0, 0, 0) == Zeros(16)
  {
    assert Be32(0) == Zeros(4);
  }

  lemma AbcStart()
    ensures SpellFour(0x61626380, 0, 0, 0) == ABC_TEXT + [0x80] + Zeros(12)
  {
    assert Be32(0x61626380) == [0x61, 0x62, 0x63, 0x80] && Be32(0) == Zeros(4);
  }

  lemma SmallBytes()
    ensures ByteOf(0) == 0 && ByteOf(2) == 2 && ByteOf(24) == 24 && ByteOf(0xA0) == 0xA0 && ByteOf(0xE0) == 0xE0
  {}

  /** The bit counts of the three messages. */
  lemma BitCounts()
    ensures Be64(24) == [0, 0, 0, 0, 0, 0, 0, 24]
    ensures Be64(736) == [0, 0, 0, 0, 0, 0, 2, 0xE0]
    ensures Be64(672) == [0, 0, 0, 0, 0, 0, 2, 0xA0]
  {
    hide ByteOf;
    SmallBytes();
  }

  lemma CountWords()
    ensures Be32(24) == [0, 0, 0, 24] && Be32(736) == [0, 0, 2, 0xE0] && Be32(672) == [0, 0, 2, 0xA0]
  {}

  lemma CountSpelt(low: bv32, a: byte, b: byte)
    requires Be32(low) == [0, 0, a, b]
    ensures SpellFour(0, 0, 0, low) == Zeros(8) + [0, 0, 0, 0, 0, 0, a, b]
  {
    assert Be32(0) == Zeros(4);
  }

  lemma AbcPadded()
    ensures Pad(ABC_TEXT) == Spell(ABC_0)
  {
    hide Be32, Be64, SpellFour;
    AbcStart();
    FourZeros();
    BitCounts();
    CountWords();
    CountSpelt(24, 0, 24);
    assert ABC_0.w0 == 0x61626380 && ABC_0.w15 == 24;
  }

  lemma OneBlock(h: Vars, block: seq<byte>)
    requires |block| == 64
    ensures Absorb(h, block) == Compress(h, block)
  {
    hide Compress;
    assert block[..64] == block && block[64..] == [];
  }

  /** The known answer of FIPS 180 for "abc". */
  lemma AbcDigest()
    ensures Hash(ABC_TEXT)
         == [0xa9, 0x99, 0x3e, 0x36, 0x47, 0x06, 0x81, 0x6a, 0xba, 0x3e, 0x25, 0x71, 0x78, 0x50, 0xc2, 0x6c,
             0x9c, 0xd0, 0xd8, 0x9d]
  {
    hide Compress, Absorb, Pad, Spell;
    AbcPadded();
    OneBlock(H0, Spell(ABC_0));
    AbcBlock();
  }

  // Test case 2 of section 3 of RFC 2202.

  const KEY: seq<byte> := [0x4A, 0x65, 0x66, 0x65]
  const TEXT_START: seq<byte> := 
    [0x77, 0x68, 0x61, 0x74, 0x20, 0x64, 0x6F, 0x20, 0x79, 0x61, 0x20, 0x77, 0x61, 0x6E, 0x74, 0x20]
  const TEXT_END: seq<byte> :=
    [0x66, 0x6F, 0x72, 0x20, 0x6E, 0x6F, 0x74, 0x68, 0x69, 0x6E, 0x67, 0x3F]

  function Repeat(b: byte, n: nat): (s: seq<byte>)
    ensures |s| == n
  {
    seq(n, _ => b)
  }

  lemma MaskedKey(mask: byte, first: seq<byte>)
    requires |first| == 4 && forall i :: 0 <= i < 4 ==> first[i] == MaskByte(KEY[i], mask)
    ensures Masked(BlockKey(KEY), mask) == first + Repeat(MaskByte(0, mask), 60)
  {
    hide MaskByte;
  }

  lemma InnerKeySpelt()
    ensures Masked(BlockKey(KEY), 0x36) == Spell(INNER_KEY_0)
  {
    MaskedKey(0x36, [0x7C, 0x53, 0x50, 0x53]);
    FilledWith(INNER_KEY_0.w0, [0x7C, 0x53, 0x50, 0x53], 0x36363636, 0x36);
  }

  lemma OuterKeySpelt()
    ensures Masked(BlockKey(KEY), 0x5C) == Spell(OUTER_KEY_0)
  {
    MaskedKey(0x5C, [0x16, 0x39, 0x3A, 0x39]);
    FilledWith(OUTER_KEY_0.w0, [0x16, 0x39, 0x3A, 0x39], 0x5C5C5C5C, 0x5C);
  }

  lemma FilledWith(w: bv32, first: seq<byte>, fill: bv32, b: byte)
    requires Be32(w) == first && Be32(fill) == Repeat(b, 4)
    ensures SpellFour(w, fill, fill, fill) == first + Repeat(b, 12)
    ensures SpellFour(fill, fill, fill, fill) == Repeat(b, 16)
    ensures Spell(Row(w, fill, fill, fill, fill, fill, fill, fill, fill, fill, fill, fill, fill, fill, fill, fill))
         == first + Repeat(b, 60)
  {
    hide Be32;
  }

  lemma TextStart()
    ensures SpellFour(INNER_TEXT_0.w0, INNER_TEXT_0.w1, INNER_TEXT_0.w2, INNER_TEXT_0.w3) == TEXT_START
  {}

  lemma TextEnd()
    ensures SpellFour(INNER_TEXT_0.w4, INNER_TEXT_0.w5, INNER_TEXT_0.w6, INNER_TEXT_0.w7)
         == TEXT_END + [0x80, 0, 0, 0]
  {}

  lemma InnerTextSpelt()
    ensures Pad(Spell(INNER_KEY_0) + (TEXT_START + TEXT_END)) == Spell(INNER_KEY_0) + Spell(INNER_TEXT_0)
  {
    hide Be32, Be64, SpellFour, Four;
    TextStart();
    TextEnd();
    FourZeros();
    BitCounts();
    CountWords();
    CountSpelt(736, 2, 0xE0);
    TextPadded(Spell(INNER_KEY_0), Spell(INNER_TEXT_0));
  }

  lemma TextPadded(key: seq<byte>, block: seq<byte>)
    requires |key| == 64
    requires block == Four(TEXT_START, TEXT_END + [0x80, 0, 0, 0], Zeros(16), Zeros(8) + Be64(736))
    ensures Pad(key + (TEXT_START + TEXT_END)) == key + block
  {
    hide Be64;
  }

  // The inner digest: the words of INNER_HASH.

  lemma InnerDigest()
    ensures Spell(OUTER_TEXT_0)
         == Four(Be32(INNER_HASH.a) + Be32(INNER_HASH.b) + Be32(INNER_HASH.c) + Be32(INNER_HASH.d),
                 Be32(INNER_HASH.e) + [0x80] + Zeros(11), Zeros(16), Zeros(8) + Be64(672))
  {
    hide Be32, Be64, SpellFour, Four;
    FourZeros();
    BitCounts();
    CountWords();
    CountSpelt(672, 2, 0xA0);
    DigestWords();
  }

  lemma DigestWords()
    ensures SpellFour(OUTER_TEXT_0.w0, OUTER_TEXT_0.w1, OUTER_TEXT_0.w2, OUTER_TEXT_0.w3)
         == Be32(INNER_HASH.a) + Be32(INNER_HASH.b) + Be32(INNER_HASH.c) + Be32(INNER_HASH.d)
    ensures SpellFour(OUTER_TEXT_0.w4, OUTER_TEXT_0.w5, OUTER_TEXT_0.w6, OUTER_TEXT_0.w7)
         == Be32(INNER_HASH.e) + [0x80] + Zeros(11)
  {
    assert Be32(0x80000000) == [0x80] + Zeros(3) && Be32(0) == Zeros(4);
    hide Be32;
  }

  lemma DigestPadded(key: seq<byte>, h: Vars, block: seq<byte>)
    requires |key| == 64
    requires block == Four(Be32(h.a) + Be32(h.b) + Be32(h.c) + Be32(h.d), Be32(h.e) + [0x80] + Zeros(11), Zeros(16),
                           Zeros(8) + Be64(672))
    ensures Pad(key + Digest(h)) == key + block
  {
    hide Be32, Be64;
  }

  lemma TwoBlocks(h: Vars, x: seq<byte>, y: seq<byte>)
    requires |x| == |y| == 64
    ensures Absorb(h, x + y) == Compress(Compress(h, x), y)
  {
    hide Compress, Absorb;
    AbsorbBlock(h, x, y);
    OneBlock(h, x);
  }

  lemma InnerHash()
    ensures Inner(KEY, TEXT_START + TEXT_END) == Digest(INNER_HASH)
  {
    hide Compress, Absorb, Pad, Spell, Masked, BlockKey, Digest;
    InnerKeySpelt();
    InnerTextSpelt();
    TwoBlocks(H0, Spell(INNER_KEY_0), Spell(INNER_TEXT_0));
    InnerKeyBlock();
    InnerTextBlock();
  }

  /** The known answer of RFC 2202 for the key "Jefe" and the text "what do ya want for nothing?". */
  lemma JefeCode()
    ensures Code(KEY, TEXT_START + TEXT_END)
         == [0xef, 0xfc, 0xdf, 0x6a, 0xe5, 0xeb, 0x2f, 0xa2, 0xd2, 0x74, 0x16, 0xd5, 0xf1, 0x84, 0xdf, 0x9c,
             0x25, 0x9a, 0x7c, 0x79]
  {
    hide Compress, Absorb, Pad, Spell, Four, Masked, BlockKey, Inner, Be64;
    InnerHash();
    OuterKeySpelt();
    InnerDigest();
    DigestPadded(Spell(OUTER_KEY_0), INNER_HASH, Spell(OUTER_TEXT_0));
    TwoBlocks(H0, Spell(OUTER_KEY_0), Spell(OUTER_TEXT_0));
    OuterKeyBlock();
    OuterTextBlock();
  }
}

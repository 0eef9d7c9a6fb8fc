/** The first values of the Mersenne Twister for its default seed, as its reference
    implementation gives them. */
module MersenneAnswers {
  import opened MersenneTwister

  // Five words on; `i` is the index of the first of them.
  function Five(a: word, i: nat): word
    requires i + 4 < N
  {
    SeedStep(SeedStep(SeedStep(SeedStep(SeedStep(a, i), i + 1), i + 2), i + 3), i + 4)
  }

  lemma {:induction false} OneWord(seed: word, k: nat, a: word, i: nat, b: word)
    requires i == k + 1 < N && X(seed, k) == a && SeedStep(a, i) == b
    ensures X(seed, i) == b
  {
    hide X, SeedStep;
    SeededWord(seed, i);
  }

  lemma {:induction false} FiveWords(seed: word, k: nat, a: word, i: nat, j: nat, b: word)
    requires i == k + 1 && j == k + 5 < N && X(seed, k) == a && Five(a, i) == b
    ensures X(seed, j) == b
  {
    hide X, SeedStep;
    SeededWord(seed, k + 1);
    SeededWord(seed, k + 2);
    SeededWord(seed, k + 3);
    SeededWord(seed, k + 4);
    SeededWord(seed, k + 5);
  }

  lemma {:induction false} SeedWords40()
    requires X(DEFAULT_SEED, 0) == 5489
    ensures X(DEFAULT_SEED, 40) == 1603307207
  {
    hide X;
    FiveWords(DEFAULT_SEED, 0, 5489, 1, 5, 751856242);
    FiveWords(DEFAULT_SEED, 5, 751856242, 6, 10, 2066767472);
    FiveWords(DEFAULT_SEED, 10, 2066767472, 11, 15, 3418470598);
    FiveWords(DEFAULT_SEED, 15, 3418470598, 16, 20, 2982310801);
    FiveWords(DEFAULT_SEED, 20, 2982310801, 21, 25, 431328322);
    FiveWords(DEFAULT_SEED, 25, 431328322, 26, 30, 3342585396);
    FiveWords(DEFAULT_SEED, 30, 3342585396, 31, 35, 4233871309);
    FiveWords(DEFAULT_SEED, 35, 4233871309, 36, 40, 1603307207);
  }

  lemma {:induction false} SeedWords80()
    requires X(DEFAULT_SEED, 40) == 1603307207
    ensures X(DEFAULT_SEED, 80) == 624778151
  {
    hide X;
    FiveWords(DEFAULT_SEED, 40, 1603307207, 41, 45, 931059398);
    FiveWords(DEFAULT_SEED, 45, 931059398, 46, 50, 124945756);
    FiveWords(DEFAULT_SEED, 50, 124945756, 51, 55, 3884886417);
    FiveWords(DEFAULT_SEED, 55, 3884886417, 56, 60, 1339167484);
    FiveWords(DEFAULT_SEED, 60, 1339167484, 61, 65, 3902664099);
    FiveWords(DEFAULT_SEED, 65, 3902664099, 66, 70, 4287636090);
    FiveWords(DEFAULT_SEED, 70, 4287636090, 71, 75, 1620962684);
    FiveWords(DEFAULT_SEED, 75, 1620962684, 76, 80, 624778151);
  }

  lemma {:induction false} SeedWords120()
    requires X(DEFAULT_SEED, 80) == 624778151
    ensures X(DEFAULT_SEED, 120) == 2502746480
  {
    hide X;
    FiveWords(DEFAULT_SEED, 80, 624778151, 81, 85, 1570449747);
    FiveWords(DEFAULT_SEED, 85, 1570449747, 86, 90, 2836829791);
    FiveWords(DEFAULT_SEED, 90, 2836829791, 91, 95, 1675188680);
    FiveWords(DEFAULT_SEED, 95, 1675188680, 96, 100, 1834958505);
    FiveWords(DEFAULT_SEED, 100, 1834958505, 101, 105, 3918322701);
    FiveWords(DEFAULT_SEED, 105, 3918322701, 106, 110, 2146983041);
    FiveWords(DEFAULT_SEED, 110, 2146983041, 111, 115, 1896136409);
    FiveWords(DEFAULT_SEED, 115, 1896136409, 116, 120, 2502746480);
  }

  lemma {:induction false} SeedWords160()
    requires X(DEFAULT_SEED, 120) == 2502746480
    ensures X(DEFAULT_SEED, 160) == 3955548058
  {
    hide X;
    FiveWords(DEFAULT_SEED, 120, 2502746480, 121, 125, 3626131687);
    FiveWords(DEFAULT_SEED, 125, 3626131687, 126, 130, 2915734330);
    FiveWords(DEFAULT_SEED, 130, 2915734330, 131, 135, 1029741190);
    FiveWords(DEFAULT_SEED, 135, 1029741190, 136, 140, 1285330465);
    FiveWords(DEFAULT_SEED, 140, 1285330465, 141, 145, 2313004527);
    FiveWords(DEFAULT_SEED, 145, 2313004527, 146, 150, 3848622725);
    FiveWords(DEFAULT_SEED, 150, 3848622725, 151, 155, 3194437393);
    FiveWords(DEFAULT_SEED, 155, 3194437393, 156, 160, 3955548058);
  }

  lemma {:induction false} SeedWords200()
    requires X(DEFAULT_SEED, 160) == 3955548058
    ensures X(DEFAULT_SEED, 200) == 123512128
  {
    hide X;
    FiveWords(DEFAULT_SEED, 160, 3955548058, 161, 165, 3083993636);
    FiveWords(DEFAULT_SEED, 165, 3083993636, 166, 170, 3239502554);
    FiveWords(DEFAULT_SEED, 170, 3239502554, 171, 175, 1792435497);
    FiveWords(DEFAULT_SEED, 175, 1792435497, 176, 180, 2200142389);
    FiveWords(DEFAULT_SEED, 180, 2200142389, 181, 185, 1663384067);
    FiveWords(DEFAULT_SEED, 185, 1663384067, 186, 190, 3529067263);
    FiveWords(DEFAULT_SEED, 190, 3529067263, 191, 195, 2076220115);
    FiveWords(DEFAULT_SEED, 195, 2076220115, 196, 200, 123512128);
  }

  lemma {:induction false} SeedWords240()
    requires X(DEFAULT_SEED, 200) == 123512128
    ensures X(DEFAULT_SEED, 240) == 1678403446
  {
    hide X;
    FiveWords(DEFAULT_SEED, 200, 123512128, 201, 205, 3888857667);
    FiveWords(DEFAULT_SEED, 205, 3888857667, 206, 210, 4045394511);
    FiveWords(DEFAULT_SEED, 210, 4045394511, 211, 215, 3181438866);
    FiveWords(DEFAULT_SEED, 215, 3181438866, 216, 220, 3878728600);
    FiveWords(DEFAULT_SEED, 220, 3878728600, 221, 225, 1970023127);
    FiveWords(DEFAULT_SEED, 225, 1970023127, 226, 230, 2967685492);
    FiveWords(DEFAULT_SEED, 230, 2967685492, 231, 235, 341264097);
    FiveWords(DEFAULT_SEED, 235, 341264097, 236, 240, 1678403446);
  }

  lemma {:induction false} SeedWords280()
    requires X(DEFAULT_SEED, 240) == 1678403446
    ensures X(DEFAULT_SEED, 280) == 3106564952
  {
    hide X;
    FiveWords(DEFAULT_SEED, 240, 1678403446, 241, 245, 1208589219);
    FiveWords(DEFAULT_SEED, 245, 1208589219, 246, 250, 3306867480);
    FiveWords(DEFAULT_SEED, 250, 3306867480, 251, 255, 3674877796);
    FiveWords(DEFAULT_SEED, 255, 3674877796, 256, 260, 3048728353);
    FiveWords(DEFAULT_SEED, 260, 3048728353, 261, 265, 3979110629);
    FiveWords(DEFAULT_SEED, 265, 3979110629, 266, 270, 587085778);
    FiveWords(DEFAULT_SEED, 270, 587085778, 271, 275, 3784844662);
    FiveWords(DEFAULT_SEED, 275, 3784844662, 276, 280, 3106564952);
  }

  lemma {:induction false} SeedWords320()
    requires X(DEFAULT_SEED, 280) == 3106564952
    ensures X(DEFAULT_SEED, 320) == 2962920654
  {
    hide X;
    FiveWords(DEFAULT_SEED, 280, 3106564952, 281, 285, 31522386);
    FiveWords(DEFAULT_SEED, 285, 31522386, 286, 290, 1225290080);
    FiveWords(DEFAULT_SEED, 290, 1225290080, 291, 295, 3996284304);
    FiveWords(DEFAULT_SEED, 295, 3996284304, 296, 300, 423621996);
    FiveWords(DEFAULT_SEED, 300, 423621996, 301, 305, 1488867287);
    FiveWords(DEFAULT_SEED, 305, 1488867287, 306, 310, 976561178);
    FiveWords(DEFAULT_SEED, 310, 976561178, 311, 315, 2360242564);
    FiveWords(DEFAULT_SEED, 315, 2360242564, 316, 320, 2962920654);
  }

  lemma {:induction false} SeedWords360()
    requires X(DEFAULT_SEED, 320) == 2962920654
    ensures X(DEFAULT_SEED, 360) == 4238214053
  {
    hide X;
    FiveWords(DEFAULT_SEED, 320, 2962920654, 321, 325, 815055854);
    FiveWords(DEFAULT_SEED, 325, 815055854, 326, 330, 4091048725);
    FiveWords(DEFAULT_SEED, 330, 4091048725, 331, 335, 2682801776);
    FiveWords(DEFAULT_SEED, 335, 2682801776, 336, 340, 607905174);
    FiveWords(DEFAULT_SEED, 340, 607905174, 341, 345, 2008609376);
    FiveWords(DEFAULT_SEED, 345, 2008609376, 346, 350, 2189520818);
    FiveWords(DEFAULT_SEED, 350, 2189520818, 351, 355, 715966018);
    FiveWords(DEFAULT_SEED, 355, 715966018, 356, 360, 4238214053);
  }

  lemma {:induction false} SeedWords395()
    requires X(DEFAULT_SEED, 360) == 4238214053
    ensures X(DEFAULT_SEED, 395) == 3124053868
  {
    hide X;
    FiveWords(DEFAULT_SEED, 360, 4238214053, 361, 365, 2313532447);
    FiveWords(DEFAULT_SEED, 365, 2313532447, 366, 370, 551538993);
    FiveWords(DEFAULT_SEED, 370, 551538993, 371, 375, 422862282);
    FiveWords(DEFAULT_SEED, 375, 422862282, 376, 380, 928171837);
    FiveWords(DEFAULT_SEED, 380, 928171837, 381, 385, 3290185549);
    FiveWords(DEFAULT_SEED, 385, 3290185549, 386, 390, 3655312128);
    FiveWords(DEFAULT_SEED, 390, 3655312128, 391, 395, 3124053868);
  }

  lemma {:induction false} SeedWords()
    ensures X(DEFAULT_SEED, 0) == 5489 && X(DEFAULT_SEED, 1) == 1301868182 && X(DEFAULT_SEED, 2) == 2938499221
    ensures X(DEFAULT_SEED, 397) == 3183906156 && X(DEFAULT_SEED, 398) == 1728556020
  {
    hide X;
    FirstWord(DEFAULT_SEED);
    OneWord(DEFAULT_SEED, 0, 5489, 1, 1301868182);
    OneWord(DEFAULT_SEED, 1, 1301868182, 2, 2938499221);
    SeedWords40();
    SeedWords80();
    SeedWords120();
    SeedWords160();
    SeedWords200();
    SeedWords240();
    SeedWords280();
    SeedWords320();
    SeedWords360();
    SeedWords395();
    OneWord(DEFAULT_SEED, 395, 3124053868, 396, 1447103986);
    OneWord(DEFAULT_SEED, 396, 1447103986, 397, 3183906156);
    OneWord(DEFAULT_SEED, 397, 3183906156, 398, 1728556020);
  }

  lemma {:induction false} RenewedWord(seed: word, k: nat)
    ensures X(seed, k + N) == Xor(X(seed, k + M), Twist(X(seed, k), X(seed, k + 1)))
  {
    hide Xor, Twist, SeedStep;
  }

  // The first values for the default seed.
  lemma {:induction false} FirstValues()
    ensures Temper(X(DEFAULT_SEED, N)) == 3499211612 && Temper(X(DEFAULT_SEED, N + 1)) == 581869302
  {
    hide X;
    SeedWords();
    RenewedWord(DEFAULT_SEED, 0);
    RenewedWord(DEFAULT_SEED, 1);
  }
}

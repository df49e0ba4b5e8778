// The seed table of both square-root kernels (sqrt_data.c), and the error bound that
// every one of its 128 entries must meet over its own interval of radicands.
module RsqrtTable {
  import opened Arith
  import opened FixedPoint

  /** The radicands, in format 2.30, whose leading bits select entry i: [2, 4) for i < 64, [1, 2) from 64 on. */
  function RowStart(i: nat): nat {
    if i < 64 then 0x8000_0000 + i * 0x200_0000 else 0x4000_0000 + (i - 64) * 0x100_0000
  }

  function RowWidth(i: nat): nat {
    if i < 64 then 0x200_0000 else 0x100_0000
  }

  /** Entry t serves every radicand of row i: the bound of GoodSeed at both ends of the row. */
  predicate SeedOk(t: nat, i: nat)
  {
    var lo, hi := RowStart(i), RowStart(i) + RowWidth(i);
    && 0x8000 <= t < 0x1_0000
    && 0x3f80_0000_0000_0000 <= t * t * lo
    && t * t * hi <= 0x4080_0000_0000_0000
    && t * (THREE + 2 - t * t / 4) < 0x8000_0000_0000
    && hi * t < 0xc000_0000_0000
  }

  // Eight groups of 16 entries, and below one concrete evaluation of SeedOk for each entry.
  function Rows0(i: nat): (t: nat)
    requires 0 <= i < 16
  {
    match i
    case 0 => 0xb451 case 1 => 0xb2f0 case 2 => 0xb196 case 3 => 0xb044 case 4 => 0xaef9 case 5 => 0xadb6 case 6 => 0xac79 case 7 => 0xab43
    case 8 => 0xaa14 case 9 => 0xa8eb case 10 => 0xa7c8 case 11 => 0xa6aa case 12 => 0xa592 case 13 => 0xa480 case 14 => 0xa373 case _ => 0xa26b
  }

  function Rows16(i: nat): (t: nat)
    requires 16 <= i < 32
  {
    match i
    case 16 => 0xa168 case 17 => 0xa06a case 18 => 0x9f70 case 19 => 0x9e7b case 20 => 0x9d8a case 21 => 0x9c9d case 22 => 0x9bb5 case 23 => 0x9ad1
    case 24 => 0x99f0 case 25 => 0x9913 case 26 => 0x983a case 27 => 0x9765 case 28 => 0x9693 case 29 => 0x95c4 case 30 => 0x94f8 case _ => 0x9430
  }

  function Rows32(i: nat): (t: nat)
    requires 32 <= i < 48
  {
    match i
    case 32 => 0x936b case 33 => 0x92a9 case 34 => 0x91ea case 35 => 0x912e case 36 => 0x9075 case 37 => 0x8fbe case 38 => 0x8f0a case 39 => 0x8e59
    case 40 => 0x8daa case 41 => 0x8cfe case 42 => 0x8c54 case 43 => 0x8bac case 44 => 0x8b07 case 45 => 0x8a64 case 46 => 0x89c4 case _ => 0x8925
  }

  function Rows48(i: nat): (t: nat)
    requires 48 <= i < 64
  {
    match i
    case 48 => 0x8889 case 49 => 0x87ee case 50 => 0x8756 case 51 => 0x86c0 case 52 => 0x862b case 53 => 0x8599 case 54 => 0x8508 case 55 => 0x8479
    case 56 => 0x83ec case 57 => 0x8361 case 58 => 0x82d8 case 59 => 0x8250 case 60 => 0x81c9 case 61 => 0x8145 case 62 => 0x80c2 case _ => 0x8040
  }

  function Rows64(i: nat): (t: nat)
    requires 64 <= i < 80
  {
    match i
    case 64 => 0xff02 case 65 => 0xfd0e case 66 => 0xfb25 case 67 => 0xf947 case 68 => 0xf773 case 69 => 0xf5aa case 70 => 0xf3ea case 71 => 0xf234
    case 72 => 0xf087 case 73 => 0xeee3 case 74 => 0xed47 case 75 => 0xebb3 case 76 => 0xea27 case 77 => 0xe8a3 case 78 => 0xe727 case _ => 0xe5b2
  }

  function Rows80(i: nat): (t: nat)
    requires 80 <= i < 96
  {
    match i
    case 80 => 0xe443 case 81 => 0xe2dc case 82 => 0xe17a case 83 => 0xe020 case 84 => 0xdecb case 85 => 0xdd7d case 86 => 0xdc34 case 87 => 0xdaf1
    case 88 => 0xd9b3 case 89 => 0xd87b case 90 => 0xd748 case 91 => 0xd61a case 92 => 0xd4f1 case 93 => 0xd3cd case 94 => 0xd2ad case _ => 0xd192
  }

  function Rows96(i: nat): (t: nat)
    requires 96 <= i < 112
  {
    match i
    case 96 => 0xd07b case 97 => 0xcf69 case 98 => 0xce5b case 99 => 0xcd51 case 100 => 0xcc4a case 101 => 0xcb48 case 102 => 0xca4a case 103 => 0xc94f
    case 104 => 0xc858 case 105 => 0xc764 case 106 => 0xc674 case 107 => 0xc587 case 108 => 0xc49d case 109 => 0xc3b7 case 110 => 0xc2d4 case _ => 0xc1f4
  }

  function Rows112(i: nat): (t: nat)
    requires 112 <= i < 128
  {
    match i
    case 112 => 0xc116 case 113 => 0xc03c case 114 => 0xbf65 case 115 => 0xbe90 case 116 => 0xbdbe case 117 => 0xbcef case 118 => 0xbc23 case 119 => 0xbb59
    case 120 => 0xba91 case 121 => 0xb9cc case 122 => 0xb90a case 123 => 0xb84a case 124 => 0xb78c case 125 => 0xb6d0 case 126 => 0xb617 case _ => 0xb560
  }

  function RsqrtTab(i: nat): nat
    requires i < 128
  {
    if i < 16 then Rows0(i) else
    if i < 32 then Rows16(i) else
    if i < 48 then Rows32(i) else
    if i < 64 then Rows48(i) else
    if i < 80 then Rows64(i) else
    if i < 96 then Rows80(i) else
    if i < 112 then Rows96(i) else
    Rows112(i)
  }

  lemma RowsOk0(i: nat)
    requires 0 <= i < 16
    ensures SeedOk(Rows0(i), i)
  {
    match i
    case 0 => assert SeedOk(0xb451, 0); case 1 => assert SeedOk(0xb2f0, 1);
    case 2 => assert SeedOk(0xb196, 2); case 3 => assert SeedOk(0xb044, 3);
    case 4 => assert SeedOk(0xaef9, 4); case 5 => assert SeedOk(0xadb6, 5);
    case 6 => assert SeedOk(0xac79, 6); case 7 => assert SeedOk(0xab43, 7);
    case 8 => assert SeedOk(0xaa14, 8); case 9 => assert SeedOk(0xa8eb, 9);
    case 10 => assert SeedOk(0xa7c8, 10); case 11 => assert SeedOk(0xa6aa, 11);
    case 12 => assert SeedOk(0xa592, 12); case 13 => assert SeedOk(0xa480, 13);
    case 14 => assert SeedOk(0xa373, 14); case _ => assert SeedOk(0xa26b, 15);
  }

  lemma RowsOk16(i: nat)
    requires 16 <= i < 32
    ensures SeedOk(Rows16(i), i)
  {
    match i
    case 16 => assert SeedOk(0xa168, 16); case 17 => assert SeedOk(0xa06a, 17);
    case 18 => assert SeedOk(0x9f70, 18); case 19 => assert SeedOk(0x9e7b, 19);
    case 20 => assert SeedOk(0x9d8a, 20); case 21 => assert SeedOk(0x9c9d, 21);
    case 22 => assert SeedOk(0x9bb5, 22); case 23 => assert SeedOk(0x9ad1, 23);
    case 24 => assert SeedOk(0x99f0, 24); case 25 => assert SeedOk(0x9913, 25);
    case 26 => assert SeedOk(0x983a, 26); case 27 => assert SeedOk(0x9765, 27);
    case 28 => assert SeedOk(0x9693, 28); case 29 => assert SeedOk(0x95c4, 29);
    case 30 => assert SeedOk(0x94f8, 30); case _ => assert SeedOk(0x9430, 31);
  }

  lemma RowsOk32(i: nat)
    requires 32 <= i < 48
    ensures SeedOk(Rows32(i), i)
  {
    match i
    case 32 => assert SeedOk(0x936b, 32); case 33 => assert SeedOk(0x92a9, 33);
    case 34 => assert SeedOk(0x91ea, 34); case 35 => assert SeedOk(0x912e, 35);
    case 36 => assert SeedOk(0x9075, 36); case 37 => assert SeedOk(0x8fbe, 37);
    case 38 => assert SeedOk(0x8f0a, 38); case 39 => assert SeedOk(0x8e59, 39);
    case 40 => assert SeedOk(0x8daa, 40); case 41 => assert SeedOk(0x8cfe, 41);
    case 42 => assert SeedOk(0x8c54, 42); case 43 => assert SeedOk(0x8bac, 43);
    case 44 => assert SeedOk(0x8b07, 44); case 45 => assert SeedOk(0x8a64, 45);
    case 46 => assert SeedOk(0x89c4, 46); case _ => assert SeedOk(0x8925, 47);
  }

  lemma RowsOk48(i: nat)
    requires 48 <= i < 64
    ensures SeedOk(Rows48(i), i)
  {
    match i
    case 48 => assert SeedOk(0x8889, 48); case 49 => assert SeedOk(0x87ee, 49);
    case 50 => assert SeedOk(0x8756, 50); case 51 => assert SeedOk(0x86c0, 51);
    case 52 => assert SeedOk(0x862b, 52); case 53 => assert SeedOk(0x8599, 53);
    case 54 => assert SeedOk(0x8508, 54); case 55 => assert SeedOk(0x8479, 55);
    case 56 => assert SeedOk(0x83ec, 56); case 57 => assert SeedOk(0x8361, 57);
    case 58 => assert SeedOk(0x82d8, 58); case 59 => assert SeedOk(0x8250, 59);
    case 60 => assert SeedOk(0x81c9, 60); case 61 => assert SeedOk(0x8145, 61);
    case 62 => assert SeedOk(0x80c2, 62); case _ => assert SeedOk(0x8040, 63);
  }

  lemma RowsOk64(i: nat)
    requires 64 <= i < 80
    ensures SeedOk(Rows64(i), i)
  {
    match i
    case 64 => assert SeedOk(0xff02, 64); case 65 => assert SeedOk(0xfd0e, 65);
    case 66 => assert SeedOk(0xfb25, 66); case 67 => assert SeedOk(0xf947, 67);
    case 68 => assert SeedOk(0xf773, 68); case 69 => assert SeedOk(0xf5aa, 69);
    case 70 => assert SeedOk(0xf3ea, 70); case 71 => assert SeedOk(0xf234, 71);
    case 72 => assert SeedOk(0xf087, 72); case 73 => assert SeedOk(0xeee3, 73);
    case 74 => assert SeedOk(0xed47, 74); case 75 => assert SeedOk(0xebb3, 75);
    case 76 => assert SeedOk(0xea27, 76); case 77 => assert SeedOk(0xe8a3, 77);
    case 78 => assert SeedOk(0xe727, 78); case _ => assert SeedOk(0xe5b2, 79);
  }

  lemma RowsOk80(i: nat)
    requires 80 <= i < 96
    ensures SeedOk(Rows80(i), i)
  {
    match i
    case 80 => assert SeedOk(0xe443, 80); case 81 => assert SeedOk(0xe2dc, 81);
    case 82 => assert SeedOk(0xe17a, 82); case 83 => assert SeedOk(0xe020, 83);
    case 84 => assert SeedOk(0xdecb, 84); case 85 => assert SeedOk(0xdd7d, 85);
    case 86 => assert SeedOk(0xdc34, 86); case 87 => assert SeedOk(0xdaf1, 87);
    case 88 => assert SeedOk(0xd9b3, 88); case 89 => assert SeedOk(0xd87b, 89);
    case 90 => assert SeedOk(0xd748, 90); case 91 => assert SeedOk(0xd61a, 91);
    case 92 => assert SeedOk(0xd4f1, 92); case 93 => assert SeedOk(0xd3cd, 93);
    case 94 => assert SeedOk(0xd2ad, 94); case _ => assert SeedOk(0xd192, 95);
  }

  lemma RowsOk96(i: nat)
    requires 96 <= i < 112
    ensures SeedOk(Rows96(i), i)
  {
    match i
    case 96 => assert SeedOk(0xd07b, 96); case 97 => assert SeedOk(0xcf69, 97);
    case 98 => assert SeedOk(0xce5b, 98); case 99 => assert SeedOk(0xcd51, 99);
    case 100 => assert SeedOk(0xcc4a, 100); case 101 => assert SeedOk(0xcb48, 101);
    case 102 => assert SeedOk(0xca4a, 102); case 103 => assert SeedOk(0xc94f, 103);
    case 104 => assert SeedOk(0xc858, 104); case 105 => assert SeedOk(0xc764, 105);
    case 106 => assert SeedOk(0xc674, 106); case 107 => assert SeedOk(0xc587, 107);
    case 108 => assert SeedOk(0xc49d, 108); case 109 => assert SeedOk(0xc3b7, 109);
    case 110 => assert SeedOk(0xc2d4, 110); case _ => assert SeedOk(0xc1f4, 111);
  }

  lemma RowsOk112(i: nat)
    requires 112 <= i < 128
    ensures SeedOk(Rows112(i), i)
  {
    match i
    case 112 => assert SeedOk(0xc116, 112); case 113 => assert SeedOk(0xc03c, 113);
    case 114 => assert SeedOk(0xbf65, 114); case 115 => assert SeedOk(0xbe90, 115);
    case 116 => assert SeedOk(0xbdbe, 116); case 117 => assert SeedOk(0xbcef, 117);
    case 118 => assert SeedOk(0xbc23, 118); case 119 => assert SeedOk(0xbb59, 119);
    case 120 => assert SeedOk(0xba91, 120); case 121 => assert SeedOk(0xb9cc, 121);
    case 122 => assert SeedOk(0xb90a, 122); case 123 => assert SeedOk(0xb84a, 123);
    case 124 => assert SeedOk(0xb78c, 124); case 125 => assert SeedOk(0xb6d0, 125);
    case 126 => assert SeedOk(0xb617, 126); case _ => assert SeedOk(0xb560, 127);
  }

  lemma TableOk(i: nat)
    requires i < 128
    ensures SeedOk(RsqrtTab(i), i)
  {
    if i < 16 { RowsOk0(i); } else
    if i < 32 { RowsOk16(i); } else
    if i < 48 { RowsOk32(i); } else
    if i < 64 { RowsOk48(i); } else
    if i < 80 { RowsOk64(i); } else
    if i < 96 { RowsOk80(i); } else
    if i < 112 { RowsOk96(i); } else
    { RowsOk112(i); }
  }

  lemma SeedServesRow(t: nat, i: nat, m: nat)
    requires i < 128 && SeedOk(t, i) && RowStart(i) <= m < RowStart(i) + RowWidth(i)
    ensures GoodSeed(m, t)
  {
    var hi := RowStart(i) + RowWidth(i);
    MulMono(t * t, RowStart(i), m);
    MulMono(t * t, m, hi);
    MulMono(t, m, hi);
  }

  /** Every radicand finds a seed good enough for it in its own row: the claim of the comment in sqrt.c, in square form. */
  lemma SeedIsGood(i: nat, m: nat)
    requires i < 128 && RowStart(i) <= m < RowStart(i) + RowWidth(i)
    ensures GoodSeed(m, RsqrtTab(i))
  {
    TableOk(i);
    SeedServesRow(RsqrtTab(i), i, m);
  }
}

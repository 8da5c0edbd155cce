/** The digest of "abc", the first of the test vectors of section 7.3 of RFC 3174, step by step. */
module Sha1Vector {
  import opened Sha1

  /** Step b of section 6.1 for word `t`. */
  lemma WordStep(block: seq<Word>, t: nat, a: Word, b: Word, c: Word, d: Word, w: Word)
    requires |block| == 16 && 16 <= t
    requires Schedule(block, t - 3) == a && Schedule(block, t - 8) == b
    requires Schedule(block, t - 14) == c && Schedule(block, t - 16) == d
    requires w == S(1, Xor(a, b, c, d))
    ensures Schedule(block, t) == w
  {
    ScheduleStep(block, t);
  }

  /** Step d for `t`: `a` and `c` are the registers it computes. */
  lemma Step(block: seq<Word>, t: nat, r: Regs, w: Word, a: Word, c: Word)
    requires |block| == 16 && Rounds(block, H0, t) == r && Schedule(block, t) == w
    requires a == Sum(S(5, r.a), F(t, r.b, r.c, r.d), r.e, w, K(t)) && c == S(30, r.b)
    ensures Rounds(block, H0, t + 1) == Regs(a, r.a, c, r.c, r.d)
  {
    hide S, F, K, Sum, Schedule;
  }

  /** Words 0 to 15 of the schedule. */
  ghost predicate Row0(block: seq<Word>)
    requires |block| == 16
  {
    && Schedule(block, 0) == 0x61626380 && Schedule(block, 1) == 0x00000000
    && Schedule(block, 2) == 0x00000000 && Schedule(block, 3) == 0x00000000
    && Schedule(block, 4) == 0x00000000 && Schedule(block, 5) == 0x00000000
    && Schedule(block, 6) == 0x00000000 && Schedule(block, 7) == 0x00000000
    && Schedule(block, 8) == 0x00000000 && Schedule(block, 9) == 0x00000000
    && Schedule(block, 10) == 0x00000000 && Schedule(block, 11) == 0x00000000
    && Schedule(block, 12) == 0x00000000 && Schedule(block, 13) == 0x00000000
    && Schedule(block, 14) == 0x00000000 && Schedule(block, 15) == 0x00000018
  }

  /** Words 16 to 31 of the schedule. */
  ghost predicate Row1(block: seq<Word>)
    requires |block| == 16
  {
    && Schedule(block, 16) == 0xC2C4C700 && Schedule(block, 17) == 0x00000000
    && Schedule(block, 18) == 0x00000030 && Schedule(block, 19) == 0x85898E01
    && Schedule(block, 20) == 0x00000000 && Schedule(block, 21) == 0x00000060
    && Schedule(block, 22) == 0x0B131C03 && Schedule(block, 23) == 0x00000030
    && Schedule(block, 24) == 0x85898EC1 && Schedule(block, 25) == 0x16263806
    && Schedule(block, 26) == 0x00000000 && Schedule(block, 27) == 0x00000180
    && Schedule(block, 28) == 0x2C4C700C && Schedule(block, 29) == 0x000000F0
    && Schedule(block, 30) == 0x93AFB507 && Schedule(block, 31) == 0x5898E048
  }

  /** Words 32 to 47 of the schedule. */
  ghost predicate Row2(block: seq<Word>)
    requires |block| == 16
  {
    && Schedule(block, 32) == 0x8E9A9202 && Schedule(block, 33) == 0x00000600
    && Schedule(block, 34) == 0xB131C0F0 && Schedule(block, 35) == 0x16263BC6
    && Schedule(block, 36) == 0x4EBED41E && Schedule(block, 37) == 0x626380A1
    && Schedule(block, 38) == 0x16263806 && Schedule(block, 39) == 0x000018C0
    && Schedule(block, 40) == 0xD2E138C4 && Schedule(block, 41) == 0x00000F00
    && Schedule(block, 42) == 0x3AFB5079 && Schedule(block, 43) == 0x898E04E5
    && Schedule(block, 44) == 0xE2BA3C2B && Schedule(block, 45) == 0x000060C0
    && Schedule(block, 46) == 0x053A37CD && Schedule(block, 47) == 0x74458547
  }

  /** Words 48 to 63 of the schedule. */
  ghost predicate Row3(block: seq<Word>)
    requires |block| == 16
  {
    && Schedule(block, 48) == 0xDA9415ED && Schedule(block, 49) == 0x26380A16
    && Schedule(block, 50) == 0x626383A1 && Schedule(block, 51) == 0x4EBF54DE
    && Schedule(block, 52) == 0x3835B44B && Schedule(block, 53) == 0x0000F600
    && Schedule(block, 54) == 0x1E84C7A3 && Schedule(block, 55) == 0x98E04D98
    && Schedule(block, 56) == 0x651D16A0 && Schedule(block, 57) == 0x62658CA1
    && Schedule(block, 58) == 0x458544D6 && Schedule(block, 59) == 0x44584CB7
    && Schedule(block, 60) == 0x7BA06619 && Schedule(block, 61) == 0x6380AEA2
    && Schedule(block, 62) == 0x0AE55269 && Schedule(block, 63) == 0x627B49A1
  }

  /** Words 64 to 79 of the schedule. */
  ghost predicate Row4(block: seq<Word>)
    requires |block| == 16
  {
    && Schedule(block, 64) == 0x7CD45C9D && Schedule(block, 65) == 0x000F0000
    && Schedule(block, 66) == 0xFB50753A && Schedule(block, 67) == 0xEC6765E8
    && Schedule(block, 68) == 0xBA3C2BE2 && Schedule(block, 69) == 0x0060C000
    && Schedule(block, 70) == 0x3A37CD05 && Schedule(block, 71) == 0x458546F4
    && Schedule(block, 72) == 0xB8599DD6 && Schedule(block, 73) == 0x380A1A26
    && Schedule(block, 74) == 0x01E02203 && Schedule(block, 75) == 0xE7CC3456
    && Schedule(block, 76) == 0xE6E60B69 && Schedule(block, 77) == 0x00F60A00
    && Schedule(block, 78) == 0x5795EF4F && Schedule(block, 79) == 0x822E0879
  }

  lemma Words1(block: seq<Word>)
    requires |block| == 16 && Row0(block)
    ensures Row1(block)
  {
    hide Schedule;
    WordStep(block, 16, 0x00000000, 0x00000000, 0x00000000, 0x61626380, 0xC2C4C700);
    WordStep(block, 17, 0x00000000, 0x00000000, 0x00000000, 0x00000000, 0x00000000);
    WordStep(block, 18, 0x00000018, 0x00000000, 0x00000000, 0x00000000, 0x00000030);
    WordStep(block, 19, 0xC2C4C700, 0x00000000, 0x00000000, 0x00000000, 0x85898E01);
    WordStep(block, 20, 0x00000000, 0x00000000, 0x00000000, 0x00000000, 0x00000000);
    WordStep(block, 21, 0x00000030, 0x00000000, 0x00000000, 0x00000000, 0x00000060);
    WordStep(block, 22, 0x85898E01, 0x00000000, 0x00000000, 0x00000000, 0x0B131C03);
    WordStep(block, 23, 0x00000000, 0x00000018, 0x00000000, 0x00000000, 0x00000030);
    WordStep(block, 24, 0x00000060, 0xC2C4C700, 0x00000000, 0x00000000, 0x85898EC1);
    WordStep(block, 25, 0x0B131C03, 0x00000000, 0x00000000, 0x00000000, 0x16263806);
    WordStep(block, 26, 0x00000030, 0x00000030, 0x00000000, 0x00000000, 0x00000000);
    WordStep(block, 27, 0x85898EC1, 0x85898E01, 0x00000000, 0x00000000, 0x00000180);
    WordStep(block, 28, 0x16263806, 0x00000000, 0x00000000, 0x00000000, 0x2C4C700C);
    WordStep(block, 29, 0x00000000, 0x00000060, 0x00000018, 0x00000000, 0x000000F0);
    WordStep(block, 30, 0x00000180, 0x0B131C03, 0xC2C4C700, 0x00000000, 0x93AFB507);
    WordStep(block, 31, 0x2C4C700C, 0x00000030, 0x00000000, 0x00000018, 0x5898E048);
  }

  lemma Words2(block: seq<Word>)
    requires |block| == 16 && Row1(block)
    ensures Row2(block)
  {
    hide Schedule;
    WordStep(block, 32, 0x000000F0, 0x85898EC1, 0x00000030, 0xC2C4C700, 0x8E9A9202);
    WordStep(block, 33, 0x93AFB507, 0x16263806, 0x85898E01, 0x00000000, 0x00000600);
    WordStep(block, 34, 0x5898E048, 0x00000000, 0x00000000, 0x00000030, 0xB131C0F0);
    WordStep(block, 35, 0x8E9A9202, 0x00000180, 0x00000060, 0x85898E01, 0x16263BC6);
    WordStep(block, 36, 0x00000600, 0x2C4C700C, 0x0B131C03, 0x00000000, 0x4EBED41E);
    WordStep(block, 37, 0xB131C0F0, 0x000000F0, 0x00000030, 0x00000060, 0x626380A1);
    WordStep(block, 38, 0x16263BC6, 0x93AFB507, 0x85898EC1, 0x0B131C03, 0x16263806);
    WordStep(block, 39, 0x4EBED41E, 0x5898E048, 0x16263806, 0x00000030, 0x000018C0);
    WordStep(block, 40, 0x626380A1, 0x8E9A9202, 0x00000000, 0x85898EC1, 0xD2E138C4);
    WordStep(block, 41, 0x16263806, 0x00000600, 0x00000180, 0x16263806, 0x00000F00);
    WordStep(block, 42, 0x000018C0, 0xB131C0F0, 0x2C4C700C, 0x00000000, 0x3AFB5079);
    WordStep(block, 43, 0xD2E138C4, 0x16263BC6, 0x000000F0, 0x00000180, 0x898E04E5);
    WordStep(block, 44, 0x00000F00, 0x4EBED41E, 0x93AFB507, 0x2C4C700C, 0xE2BA3C2B);
    WordStep(block, 45, 0x3AFB5079, 0x626380A1, 0x5898E048, 0x000000F0, 0x000060C0);
    WordStep(block, 46, 0x898E04E5, 0x16263806, 0x8E9A9202, 0x93AFB507, 0x053A37CD);
    WordStep(block, 47, 0xE2BA3C2B, 0x000018C0, 0x00000600, 0x5898E048, 0x74458547);
  }

  lemma Words3(block: seq<Word>)
    requires |block| == 16 && Row2(block)
    ensures Row3(block)
  {
    hide Schedule;
    WordStep(block, 48, 0x000060C0, 0xD2E138C4, 0xB131C0F0, 0x8E9A9202, 0xDA9415ED);
    WordStep(block, 49, 0x053A37CD, 0x00000F00, 0x16263BC6, 0x00000600, 0x26380A16);
    WordStep(block, 50, 0x74458547, 0x3AFB5079, 0x4EBED41E, 0xB131C0F0, 0x626383A1);
    WordStep(block, 51, 0xDA9415ED, 0x898E04E5, 0x626380A1, 0x16263BC6, 0x4EBF54DE);
    WordStep(block, 52, 0x26380A16, 0xE2BA3C2B, 0x16263806, 0x4EBED41E, 0x3835B44B);
    WordStep(block, 53, 0x626383A1, 0x000060C0, 0x000018C0, 0x626380A1, 0x0000F600);
    WordStep(block, 54, 0x4EBF54DE, 0x053A37CD, 0xD2E138C4, 0x16263806, 0x1E84C7A3);
    WordStep(block, 55, 0x3835B44B, 0x74458547, 0x00000F00, 0x000018C0, 0x98E04D98);
    WordStep(block, 56, 0x0000F600, 0xDA9415ED, 0x3AFB5079, 0xD2E138C4, 0x651D16A0);
    WordStep(block, 57, 0x1E84C7A3, 0x26380A16, 0x898E04E5, 0x00000F00, 0x62658CA1);
    WordStep(block, 58, 0x98E04D98, 0x626383A1, 0xE2BA3C2B, 0x3AFB5079, 0x458544D6);
    WordStep(block, 59, 0x651D16A0, 0x4EBF54DE, 0x000060C0, 0x898E04E5, 0x44584CB7);
    WordStep(block, 60, 0x62658CA1, 0x3835B44B, 0x053A37CD, 0xE2BA3C2B, 0x7BA06619);
    WordStep(block, 61, 0x458544D6, 0x0000F600, 0x74458547, 0x000060C0, 0x6380AEA2);
    WordStep(block, 62, 0x44584CB7, 0x1E84C7A3, 0xDA9415ED, 0x053A37CD, 0x0AE55269);
    WordStep(block, 63, 0x7BA06619, 0x98E04D98, 0x26380A16, 0x74458547, 0x627B49A1);
  }

  lemma Words4(block: seq<Word>)
    requires |block| == 16 && Row3(block)
    ensures Row4(block)
  {
    hide Schedule;
    WordStep(block, 64, 0x6380AEA2, 0x651D16A0, 0x626383A1, 0xDA9415ED, 0x7CD45C9D);
    WordStep(block, 65, 0x0AE55269, 0x62658CA1, 0x4EBF54DE, 0x26380A16, 0x000F0000);
    WordStep(block, 66, 0x627B49A1, 0x458544D6, 0x3835B44B, 0x626383A1, 0xFB50753A);
    WordStep(block, 67, 0x7CD45C9D, 0x44584CB7, 0x0000F600, 0x4EBF54DE, 0xEC6765E8);
    WordStep(block, 68, 0x000F0000, 0x7BA06619, 0x1E84C7A3, 0x3835B44B, 0xBA3C2BE2);
    WordStep(block, 69, 0xFB50753A, 0x6380AEA2, 0x98E04D98, 0x0000F600, 0x0060C000);
    WordStep(block, 70, 0xEC6765E8, 0x0AE55269, 0x651D16A0, 0x1E84C7A3, 0x3A37CD05);
    WordStep(block, 71, 0xBA3C2BE2, 0x627B49A1, 0x62658CA1, 0x98E04D98, 0x458546F4);
    WordStep(block, 72, 0x0060C000, 0x7CD45C9D, 0x458544D6, 0x651D16A0, 0xB8599DD6);
    WordStep(block, 73, 0x3A37CD05, 0x000F0000, 0x44584CB7, 0x62658CA1, 0x380A1A26);
    WordStep(block, 74, 0x458546F4, 0xFB50753A, 0x7BA06619, 0x458544D6, 0x01E02203);
    WordStep(block, 75, 0xB8599DD6, 0xEC6765E8, 0x6380AEA2, 0x44584CB7, 0xE7CC3456);
    WordStep(block, 76, 0x380A1A26, 0xBA3C2BE2, 0x0AE55269, 0x7BA06619, 0xE6E60B69);
    WordStep(block, 77, 0x01E02203, 0x0060C000, 0x627B49A1, 0x6380AEA2, 0x00F60A00);
    WordStep(block, 78, 0xE7CC3456, 0x3A37CD05, 0x7CD45C9D, 0x0AE55269, 0x5795EF4F);
    WordStep(block, 79, 0xE6E60B69, 0x458546F4, 0x000F0000, 0x627B49A1, 0x822E0879);
  }

  lemma Rounds0(block: seq<Word>)
    requires |block| == 16 && Row0(block)
    requires Rounds(block, H0, 0) == Regs(0x67452301, 0xEFCDAB89, 0x98BADCFE, 0x10325476, 0xC3D2E1F0)
    ensures Rounds(block, H0, 8) == Regs(0x9E8C07D4, 0x993E30C1, 0x0FF1F290, 0xB3F52677, 0xF3763846)
  {
    hide Schedule, Rounds;
    Step(block, 0, Regs(0x67452301, 0xEFCDAB89, 0x98BADCFE, 0x10325476, 0xC3D2E1F0),
         0x61626380, 0x0116FC33, 0x7BF36AE2);
    Step(block, 1, Regs(0x0116FC33, 0x67452301, 0x7BF36AE2, 0x98BADCFE, 0x10325476),
         0x00000000, 0x8990536D, 0x59D148C0);
    Step(block, 2, Regs(0x8990536D, 0x0116FC33, 0x59D148C0, 0x7BF36AE2, 0x98BADCFE),
         0x00000000, 0xA1390F08, 0xC045BF0C);
    Step(block, 3, Regs(0xA1390F08, 0x8990536D, 0xC045BF0C, 0x59D148C0, 0x7BF36AE2),
         0x00000000, 0xCDD8E11B, 0x626414DB);
    Step(block, 4, Regs(0xCDD8E11B, 0xA1390F08, 0x626414DB, 0xC045BF0C, 0x59D148C0),
         0x00000000, 0xCFD499DE, 0x284E43C2);
    Step(block, 5, Regs(0xCFD499DE, 0xCDD8E11B, 0x284E43C2, 0x626414DB, 0xC045BF0C),
         0x00000000, 0x3FC7CA40, 0xF3763846);
    Step(block, 6, Regs(0x3FC7CA40, 0xCFD499DE, 0xF3763846, 0x284E43C2, 0x626414DB),
         0x00000000, 0x993E30C1, 0xB3F52677);
    Step(block, 7, Regs(0x993E30C1, 0x3FC7CA40, 0xB3F52677, 0xF3763846, 0x284E43C2),
         0x00000000, 0x9E8C07D4, 0x0FF1F290);
  }

  lemma Rounds8(block: seq<Word>)
    requires |block| == 16 && Row0(block)
    requires Rounds(block, H0, 8) == Regs(0x9E8C07D4, 0x993E30C1, 0x0FF1F290, 0xB3F52677, 0xF3763846)
    ensures Rounds(block, H0, 16) == Regs(0x20BDD62F, 0x196BEE77, 0x644A3DA5, 0x1181ED99, 0x18C623F9)
  {
    hide Schedule, Rounds;
    Step(block, 8, Regs(0x9E8C07D4, 0x993E30C1, 0x0FF1F290, 0xB3F52677, 0xF3763846),
         0x00000000, 0x4B6AE328, 0x664F8C30);
    Step(block, 9, Regs(0x4B6AE328, 0x9E8C07D4, 0x664F8C30, 0x0FF1F290, 0xB3F52677),
         0x00000000, 0x8351F929, 0x27A301F5);
    Step(block, 10, Regs(0x8351F929, 0x4B6AE328, 0x27A301F5, 0x664F8C30, 0x0FF1F290),
         0x00000000, 0xFBDA9E89, 0x12DAB8CA);
    Step(block, 11, Regs(0xFBDA9E89, 0x8351F929, 0x12DAB8CA, 0x27A301F5, 0x664F8C30),
         0x00000000, 0x63188FE4, 0x60D47E4A);
    Step(block, 12, Regs(0x63188FE4, 0xFBDA9E89, 0x60D47E4A, 0x12DAB8CA, 0x27A301F5),
         0x00000000, 0x4607B664, 0x7EF6A7A2);
    Step(block, 13, Regs(0x4607B664, 0x63188FE4, 0x7EF6A7A2, 0x60D47E4A, 0x12DAB8CA),
         0x00000000, 0x9128F695, 0x18C623F9);
    Step(block, 14, Regs(0x9128F695, 0x4607B664, 0x18C623F9, 0x7EF6A7A2, 0x60D47E4A),
         0x00000000, 0x196BEE77, 0x1181ED99);
    Step(block, 15, Regs(0x196BEE77, 0x9128F695, 0x1181ED99, 0x18C623F9, 0x7EF6A7A2),
         0x00000018, 0x20BDD62F, 0x644A3DA5);
  }

  lemma Rounds16(block: seq<Word>)
    requires |block| == 16 && Row1(block)
    requires Rounds(block, H0, 16) == Regs(0x20BDD62F, 0x196BEE77, 0x644A3DA5, 0x1181ED99, 0x18C623F9)
    ensures Rounds(block, H0, 24) == Regs(0xD541F12D, 0x21283486, 0x0CE88EFF, 0x868DEC32, 0x7F67875F)
  {
    hide Schedule, Rounds;
    Step(block, 16, Regs(0x20BDD62F, 0x196BEE77, 0x644A3DA5, 0x1181ED99, 0x18C623F9),
         0xC2C4C700, 0x4E925823, 0xC65AFB9D);
    Step(block, 17, Regs(0x4E925823, 0x20BDD62F, 0xC65AFB9D, 0x644A3DA5, 0x1181ED99),
         0x00000000, 0x82AA6728, 0xC82F758B);
    Step(block, 18, Regs(0x82AA6728, 0x4E925823, 0xC82F758B, 0xC65AFB9D, 0x644A3DA5),
         0x00000030, 0xDC64901D, 0xD3A49608);
    Step(block, 19, Regs(0xDC64901D, 0x82AA6728, 0xD3A49608, 0xC82F758B, 0xC65AFB9D),
         0x85898E01, 0xFD9E1D7D, 0x20AA99CA);
    Step(block, 20, Regs(0xFD9E1D7D, 0xDC64901D, 0x20AA99CA, 0xD3A49608, 0xC82F758B),
         0x00000000, 0x1A37B0CA, 0x77192407);
    Step(block, 21, Regs(0x1A37B0CA, 0xFD9E1D7D, 0x77192407, 0x20AA99CA, 0xD3A49608),
         0x00000060, 0x33A23BFC, 0x7F67875F);
    Step(block, 22, Regs(0x33A23BFC, 0x1A37B0CA, 0x7F67875F, 0x77192407, 0x20AA99CA),
         0x0B131C03, 0x21283486, 0x868DEC32);
    Step(block, 23, Regs(0x21283486, 0x33A23BFC, 0x868DEC32, 0x7F67875F, 0x77192407),
         0x00000030, 0xD541F12D, 0x0CE88EFF);
  }

  lemma Rounds24(block: seq<Word>)
    requires |block| == 16 && Row1(block)
    requires Rounds(block, H0, 24) == Regs(0xD541F12D, 0x21283486, 0x0CE88EFF, 0x868DEC32, 0x7F67875F)
    ensures Rounds(block, H0, 32) == Regs(0x3B845D33, 0x1267B407, 0x717EEBD7, 0xA0DC2D4B, 0xD2AA1365)
  {
    hide Schedule, Rounds;
    Step(block, 24, Regs(0xD541F12D, 0x21283486, 0x0CE88EFF, 0x868DEC32, 0x7F67875F),
         0x85898EC1, 0xC7567DC6, 0x884A0D21);
    Step(block, 25, Regs(0xC7567DC6, 0xD541F12D, 0x884A0D21, 0x0CE88EFF, 0x868DEC32),
         0x16263806, 0x48413BA4, 0x75507C4B);
    Step(block, 26, Regs(0x48413BA4, 0xC7567DC6, 0x75507C4B, 0x884A0D21, 0x0CE88EFF),
         0x00000000, 0xBE35FBD5, 0xB1D59F71);
    Step(block, 27, Regs(0xBE35FBD5, 0x48413BA4, 0xB1D59F71, 0x75507C4B, 0x884A0D21),
         0x00000180, 0x4AA84D97, 0x12104EE9);
    Step(block, 28, Regs(0x4AA84D97, 0xBE35FBD5, 0x12104EE9, 0xB1D59F71, 0x75507C4B),
         0x2C4C700C, 0x8370B52E, 0x6F8D7EF5);
    Step(block, 29, Regs(0x8370B52E, 0x4AA84D97, 0x6F8D7EF5, 0x12104EE9, 0xB1D59F71),
         0x000000F0, 0xC5FBAF5D, 0xD2AA1365);
    Step(block, 30, Regs(0xC5FBAF5D, 0x8370B52E, 0xD2AA1365, 0x6F8D7EF5, 0x12104EE9),
         0x93AFB507, 0x1267B407, 0xA0DC2D4B);
    Step(block, 31, Regs(0x1267B407, 0xC5FBAF5D, 0xA0DC2D4B, 0xD2AA1365, 0x6F8D7EF5),
         0x5898E048, 0x3B845D33, 0x717EEBD7);
  }

  lemma Rounds32(block: seq<Word>)
    requires |block| == 16 && Row2(block)
    requires Rounds(block, H0, 32) == Regs(0x3B845D33, 0x1267B407, 0x717EEBD7, 0xA0DC2D4B, 0xD2AA1365)
    ensures Rounds(block, H0, 40) == Regs(0x32DE1CBA, 0x4C986405, 0xF718E5CF, 0x03D447F6, 0xF72EEC32)
  {
    hide Schedule, Rounds;
    Step(block, 32, Regs(0x3B845D33, 0x1267B407, 0x717EEBD7, 0xA0DC2D4B, 0xD2AA1365),
         0x8E9A9202, 0x046FAA0A, 0xC499ED01);
    Step(block, 33, Regs(0x046FAA0A, 0x3B845D33, 0xC499ED01, 0x717EEBD7, 0xA0DC2D4B),
         0x00000600, 0x2C0EBC11, 0xCEE1174C);
    Step(block, 34, Regs(0x2C0EBC11, 0x046FAA0A, 0xCEE1174C, 0xC499ED01, 0x717EEBD7),
         0xB131C0F0, 0x21796AD4, 0x811BEA82);
    Step(block, 35, Regs(0x21796AD4, 0x2C0EBC11, 0x811BEA82, 0xCEE1174C, 0xC499ED01),
         0x16263BC6, 0xDCBBB0CB, 0x4B03AF04);
    Step(block, 36, Regs(0xDCBBB0CB, 0x21796AD4, 0x4B03AF04, 0x811BEA82, 0xCEE1174C),
         0x4EBED41E, 0x0F511FD8, 0x085E5AB5);
    Step(block, 37, Regs(0x0F511FD8, 0xDCBBB0CB, 0x085E5AB5, 0x4B03AF04, 0x811BEA82),
         0x626380A1, 0xDC63973F, 0xF72EEC32);
    Step(block, 38, Regs(0xDC63973F, 0x0F511FD8, 0xF72EEC32, 0x085E5AB5, 0x4B03AF04),
         0x16263806, 0x4C986405, 0x03D447F6);
    Step(block, 39, Regs(0x4C986405, 0xDC63973F, 0x03D447F6, 0xF72EEC32, 0x085E5AB5),
         0x000018C0, 0x32DE1CBA, 0xF718E5CF);
  }

  lemma Rounds40(block: seq<Word>)
    requires |block| == 16 && Row2(block)
    requires Rounds(block, H0, 40) == Regs(0x32DE1CBA, 0x4C986405, 0xF718E5CF, 0x03D447F6, 0xF72EEC32)
    ensures Rounds(block, H0, 48) == Regs(0xBEAD02CA, 0xA01B846C, 0x8714787C, 0x503CA382, 0xFB86C6AB)
  {
    hide Schedule, Rounds;
    Step(block, 40, Regs(0x32DE1CBA, 0x4C986405, 0xF718E5CF, 0x03D447F6, 0xF72EEC32),
         0xD2E138C4, 0xFC87DEDF, 0x53261901);
    Step(block, 41, Regs(0xFC87DEDF, 0x32DE1CBA, 0x53261901, 0xF718E5CF, 0x03D447F6),
         0x00000F00, 0x970A0D5C, 0x8CB7872E);
    Step(block, 42, Regs(0x970A0D5C, 0xFC87DEDF, 0x8CB7872E, 0x53261901, 0xF718E5CF),
         0x3AFB5079, 0x7F193DC5, 0xFF21F7B7);
    Step(block, 43, Regs(0x7F193DC5, 0x970A0D5C, 0xFF21F7B7, 0x8CB7872E, 0x53261901),
         0x898E04E5, 0xEE1B1AAF, 0x25C28357);
    Step(block, 44, Regs(0xEE1B1AAF, 0x7F193DC5, 0x25C28357, 0xFF21F7B7, 0x8CB7872E),
         0xE2BA3C2B, 0x40F28E09, 0x5FC64F71);
    Step(block, 45, Regs(0x40F28E09, 0xEE1B1AAF, 0x5FC64F71, 0x25C28357, 0xFF21F7B7),
         0x000060C0, 0x1C51E1F2, 0xFB86C6AB);
    Step(block, 46, Regs(0x1C51E1F2, 0x40F28E09, 0xFB86C6AB, 0x5FC64F71, 0x25C28357),
         0x053A37CD, 0xA01B846C, 0x503CA382);
    Step(block, 47, Regs(0xA01B846C, 0x1C51E1F2, 0x503CA382, 0xFB86C6AB, 0x5FC64F71),
         0x74458547, 0xBEAD02CA, 0x8714787C);
  }

  lemma Rounds48(block: seq<Word>)
    requires |block| == 16 && Row3(block)
    requires Rounds(block, H0, 48) == Regs(0xBEAD02CA, 0xA01B846C, 0x8714787C, 0x503CA382, 0xFB86C6AB)
    ensures Rounds(block, H0, 56) == Regs(0x5E6456AF, 0x7B71F76D, 0x09FA7C76, 0x792410DB, 0x8E11EB59)
  {
    hide Schedule, Rounds;
    Step(block, 48, Regs(0xBEAD02CA, 0xA01B846C, 0x8714787C, 0x503CA382, 0xFB86C6AB),
         0xDA9415ED, 0xBAF39337, 0x2806E11B);
    Step(block, 49, Regs(0xBAF39337, 0xBEAD02CA, 0x2806E11B, 0x8714787C, 0x503CA382),
         0x26380A16, 0x120731C5, 0xAFAB40B2);
    Step(block, 50, Regs(0x120731C5, 0xBAF39337, 0xAFAB40B2, 0x2806E11B, 0x8714787C),
         0x626383A1, 0x641DB2CE, 0xEEBCE4CD);
    Step(block, 51, Regs(0x641DB2CE, 0x120731C5, 0xEEBCE4CD, 0xAFAB40B2, 0x2806E11B),
         0x4EBF54DE, 0x3847AD66, 0x4481CC71);
    Step(block, 52, Regs(0x3847AD66, 0x641DB2CE, 0x4481CC71, 0xEEBCE4CD, 0xAFAB40B2),
         0x3835B44B, 0xE490436D, 0x99076CB3);
    Step(block, 53, Regs(0xE490436D, 0x3847AD66, 0x99076CB3, 0x4481CC71, 0xEEBCE4CD),
         0x0000F600, 0x27E9F1D8, 0x8E11EB59);
    Step(block, 54, Regs(0x27E9F1D8, 0xE490436D, 0x8E11EB59, 0x99076CB3, 0x4481CC71),
         0x1E84C7A3, 0x7B71F76D, 0x792410DB);
    Step(block, 55, Regs(0x7B71F76D, 0x27E9F1D8, 0x792410DB, 0x8E11EB59, 0x99076CB3),
         0x98E04D98, 0x5E6456AF, 0x09FA7C76);
  }

  lemma Rounds56(block: seq<Word>)
    requires |block| == 16 && Row3(block)
    requires Rounds(block, H0, 56) == Regs(0x5E6456AF, 0x7B71F76D, 0x09FA7C76, 0x792410DB, 0x8E11EB59)
    ensures Rounds(block, H0, 64) == Regs(0x6B61C9E1, 0xB66C020B, 0x9523272C, 0xF5D5B051, 0x8FD4B796)
  {
    hide Schedule, Rounds;
    Step(block, 56, Regs(0x5E6456AF, 0x7B71F76D, 0x09FA7C76, 0x792410DB, 0x8E11EB59),
         0x651D16A0, 0xC846093F, 0x5EDC7DDB);
    Step(block, 57, Regs(0xC846093F, 0x5E6456AF, 0x5EDC7DDB, 0x09FA7C76, 0x792410DB),
         0x62658CA1, 0xD262FF50, 0xD79915AB);
    Step(block, 58, Regs(0xD262FF50, 0xC846093F, 0xD79915AB, 0x5EDC7DDB, 0x09FA7C76),
         0x458544D6, 0x09D785FD, 0xF211824F);
    Step(block, 59, Regs(0x09D785FD, 0xD262FF50, 0xF211824F, 0xD79915AB, 0x5EDC7DDB),
         0x44584CB7, 0x3F52DE5A, 0x3498BFD4);
    Step(block, 60, Regs(0x3F52DE5A, 0x09D785FD, 0x3498BFD4, 0xF211824F, 0xD79915AB),
         0x7BA06619, 0xD756C147, 0x4275E17F);
    Step(block, 61, Regs(0xD756C147, 0x3F52DE5A, 0x4275E17F, 0x3498BFD4, 0xF211824F),
         0x6380AEA2, 0x548C9CB2, 0x8FD4B796);
    Step(block, 62, Regs(0x548C9CB2, 0xD756C147, 0x8FD4B796, 0x4275E17F, 0x3498BFD4),
         0x0AE55269, 0xB66C020B, 0xF5D5B051);
    Step(block, 63, Regs(0xB66C020B, 0x548C9CB2, 0xF5D5B051, 0x8FD4B796, 0x4275E17F),
         0x627B49A1, 0x6B61C9E1, 0x9523272C);
  }

  lemma Rounds64(block: seq<Word>)
    requires |block| == 16 && Row4(block)
    requires Rounds(block, H0, 64) == Regs(0x6B61C9E1, 0xB66C020B, 0x9523272C, 0xF5D5B051, 0x8FD4B796)
    ensures Rounds(block, H0, 72) == Regs(0x39859DE7, 0xC199F8C7, 0x8FC96230, 0x125C24F0, 0xDE37534A)
  {
    hide Schedule, Rounds;
    Step(block, 64, Regs(0x6B61C9E1, 0xB66C020B, 0x9523272C, 0xF5D5B051, 0x8FD4B796),
         0x7CD45C9D, 0x19DFA7AC, 0xED9B0082);
    Step(block, 65, Regs(0x19DFA7AC, 0x6B61C9E1, 0xED9B0082, 0x9523272C, 0xF5D5B051),
         0x000F0000, 0x101655F9, 0x5AD87278);
    Step(block, 66, Regs(0x101655F9, 0x19DFA7AC, 0x5AD87278, 0xED9B0082, 0x9523272C),
         0xFB50753A, 0x0C3DF2B4, 0x0677E9EB);
    Step(block, 67, Regs(0x0C3DF2B4, 0x101655F9, 0x0677E9EB, 0x5AD87278, 0xED9B0082),
         0xEC6765E8, 0x78DD4D2B, 0x4405957E);
    Step(block, 68, Regs(0x78DD4D2B, 0x0C3DF2B4, 0x4405957E, 0x0677E9EB, 0x5AD87278),
         0xBA3C2BE2, 0x497093C0, 0x030F7CAD);
    Step(block, 69, Regs(0x497093C0, 0x78DD4D2B, 0x030F7CAD, 0x4405957E, 0x0677E9EB),
         0x0060C000, 0x3F2588C2, 0xDE37534A);
    Step(block, 70, Regs(0x3F2588C2, 0x497093C0, 0xDE37534A, 0x030F7CAD, 0x4405957E),
         0x3A37CD05, 0xC199F8C7, 0x125C24F0);
    Step(block, 71, Regs(0xC199F8C7, 0x3F2588C2, 0x125C24F0, 0xDE37534A, 0x030F7CAD),
         0x458546F4, 0x39859DE7, 0x8FC96230);
  }

  lemma Rounds72(block: seq<Word>)
    requires |block| == 16 && Row4(block)
    requires Rounds(block, H0, 72) == Regs(0x39859DE7, 0xC199F8C7, 0x8FC96230, 0x125C24F0, 0xDE37534A)
    ensures Rounds(block, H0, 80) == Regs(0x42541B35, 0x5738D5E1, 0x21834873, 0x681E6DF6, 0xD8FDF6AD)
  {
    hide Schedule, Rounds;
    Step(block, 72, Regs(0x39859DE7, 0xC199F8C7, 0x8FC96230, 0x125C24F0, 0xDE37534A),
         0xB8599DD6, 0xEDB42DE4, 0xF0667E31);
    Step(block, 73, Regs(0xEDB42DE4, 0x39859DE7, 0xF0667E31, 0x8FC96230, 0x125C24F0),
         0x380A1A26, 0x11793F6F, 0xCE616779);
    Step(block, 74, Regs(0x11793F6F, 0xEDB42DE4, 0xCE616779, 0xF0667E31, 0x8FC96230),
         0x01E02203, 0x5EE76897, 0x3B6D0B79);
    Step(block, 75, Regs(0x5EE76897, 0x11793F6F, 0x3B6D0B79, 0xCE616779, 0xF0667E31),
         0xE7CC3456, 0x63F7DAB7, 0xC45E4FDB);
    Step(block, 76, Regs(0x63F7DAB7, 0x5EE76897, 0xC45E4FDB, 0x3B6D0B79, 0xCE616779),
         0xE6E60B69, 0xA079B7D9, 0xD7B9DA25);
    Step(block, 77, Regs(0xA079B7D9, 0x63F7DAB7, 0xD7B9DA25, 0xC45E4FDB, 0x3B6D0B79),
         0x00F60A00, 0x860D21CC, 0xD8FDF6AD);
    Step(block, 78, Regs(0x860D21CC, 0xA079B7D9, 0xD8FDF6AD, 0xD7B9DA25, 0xC45E4FDB),
         0x5795EF4F, 0x5738D5E1, 0x681E6DF6);
    Step(block, 79, Regs(0x5738D5E1, 0x860D21CC, 0x681E6DF6, 0xD8FDF6AD, 0xD7B9DA25),
         0x822E0879, 0x42541B35, 0x21834873);
  }

  const ABC: seq<Byte> := [0x61, 0x62, 0x63]

  const DIGEST := Regs(0xA9993E36, 0x4706816A, 0xBA3E2571, 0x7850C26C, 0x9CD0D89D)

  lemma BlockHash(block: seq<Word>)
    requires |block| == 16 && Row0(block)
    ensures Rounds(block, H0, 80) == Regs(0x42541B35, 0x5738D5E1, 0x21834873, 0x681E6DF6, 0xD8FDF6AD)
  {
    hide Schedule;
    Words1(block);
    Words2(block);
    Words3(block);
    Words4(block);
    hide Row0, Row1, Row2, Row3, Row4;
    assert Rounds(block, H0, 0) == H0;
    hide Rounds;
    Rounds0(block);
    Rounds8(block);
    Rounds16(block);
    Rounds24(block);
    Rounds32(block);
    Rounds40(block);
    Rounds48(block);
    Rounds56(block);
    Rounds64(block);
    Rounds72(block);
  }

  /** The padded message is one block: its bytes, the marker, zeros and the length in bits. */
  lemma PadAbc()
    ensures |Pad(ABC)| == 16 && Row0(Pad(ABC))
  {
    hide BigEndian, BigEndianWord, LowWord, HighWord;
    PadIs(ABC);
    LowWordIs(24);
    var body := PadBody(ABC);
    assert PadZeros(3) == 52;
    assert |body| == 56;
    forall t | 0 <= t < 14
      ensures BigEndian(body)[t] == if t == 0 then BigEndianWord(0x61, 0x62, 0x63, 0x80) else BigEndianWord(0, 0, 0, 0)
    {
      BigEndianAt(body, t);
    }
    BodyWords();
  }

  lemma BodyWords()
    ensures BigEndianWord(0x61, 0x62, 0x63, 0x80) == 0x61626380 && BigEndianWord(0, 0, 0, 0) == 0
  {
  }

  lemma AddUp()
    ensures Add(H0, Regs(0x42541B35, 0x5738D5E1, 0x21834873, 0x681E6DF6, 0xD8FDF6AD))
      == DIGEST
  {
  }

  lemma HashAbc()
    ensures |Pad(ABC)| == 16 && Hash(Pad(ABC), 1) == DIGEST
  {
    PadAbc();
    hide Pad, Row0;
    var p := Pad(ABC);
    BlockHash(p);
    AddUp();
    hide Rounds, Add;
    assert p[0..16] == p;
    assert Hash(p, 0) == H0;
  }

  /** The digest of "abc". */
  method DigestAbc() returns (H: array<Word>)
    ensures H[..] == [0xA9993E36, 0x4706816A, 0xBA3E2571, 0x7850C26C, 0x9CD0D89D]
  {
    HashAbc();
    hide Pad, Hash;
    H := Digest(ABC);
  }
}

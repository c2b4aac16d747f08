/** Two messages whose digests are known: "abc" (section 7.3 of RFC 3174), of one block, and the key of the
    example in section 1.3 of RFC 6455, of two. The words and the states of all rounds are listed. */
module Sha1Examples {
  import opened Basics
  import opened Sha1Chunks
  import opened Sha1Context
  import opened Sha1Spec
  import opened Sha1Words

  /** The state after the first block of the key. */
  const AFTER_KEY: Hash<Word> := Hash(0x5BCF7727, 0x7327416A, 0xBE7BFBF9, 0x5A781878, 0x5E46A4E2)

  const ABC_0: seq<Word> := [
    0x61626380, 0x00000000, 0x00000000, 0x00000000, 0x00000000, 0x00000000, 0x00000000, 0x00000000,
    0x00000000, 0x00000000, 0x00000000, 0x00000000, 0x00000000, 0x00000000, 0x00000000, 0x00000018]

  const ABC_1: seq<Word> := [
    0xC2C4C700, 0x00000000, 0x00000030, 0x85898E01, 0x00000000, 0x00000060, 0x0B131C03, 0x00000030,
    0x85898EC1, 0x16263806, 0x00000000, 0x00000180, 0x2C4C700C, 0x000000F0, 0x93AFB507, 0x5898E048]

  const ABC_2: seq<Word> := [
    0x8E9A9202, 0x00000600, 0xB131C0F0, 0x16263BC6, 0x4EBED41E, 0x626380A1, 0x16263806, 0x000018C0,
    0xD2E138C4, 0x00000F00, 0x3AFB5079, 0x898E04E5, 0xE2BA3C2B, 0x000060C0, 0x053A37CD, 0x74458547]

  const ABC_3: seq<Word> := [
    0xDA9415ED, 0x26380A16, 0x626383A1, 0x4EBF54DE, 0x3835B44B, 0x0000F600, 0x1E84C7A3, 0x98E04D98,
    0x651D16A0, 0x62658CA1, 0x458544D6, 0x44584CB7, 0x7BA06619, 0x6380AEA2, 0x0AE55269, 0x627B49A1]

  const ABC_4: seq<Word> := [
    0x7CD45C9D, 0x000F0000, 0xFB50753A, 0xEC6765E8, 0xBA3C2BE2, 0x0060C000, 0x3A37CD05, 0x458546F4,
    0xB8599DD6, 0x380A1A26, 0x01E02203, 0xE7CC3456, 0xE6E60B69, 0x00F60A00, 0x5795EF4F, 0x822E0879]

  lemma AbcWords1()
    ensures Follows(ABC_0, ABC_1)
  {
  }

  lemma AbcWords2()
    ensures Follows(ABC_1, ABC_2)
  {
  }

  lemma AbcWords3()
    ensures Follows(ABC_2, ABC_3)
  {
  }

  lemma AbcWords4()
    ensures Follows(ABC_3, ABC_4)
  {
  }

  lemma AbcRounds0(h: Hash<Word>, ws: seq<Word>)
    requires At(ws, 0, 0x61626380) && At(ws, 1, 0x00000000) && At(ws, 2, 0x00000000) && At(ws, 3, 0x00000000)
    requires At(ws, 4, 0x00000000) && At(ws, 5, 0x00000000) && At(ws, 6, 0x00000000) && At(ws, 7, 0x00000000)
    requires At(ws, 8, 0x00000000) && At(ws, 9, 0x00000000) && At(ws, 10, 0x00000000) && At(ws, 11, 0x00000000)
    requires At(ws, 12, 0x00000000) && At(ws, 13, 0x00000000) && At(ws, 14, 0x00000000) && At(ws, 15, 0x00000018)
    requires Runs(h, ws, 0, Hash(0x67452301, 0xEFCDAB89, 0x98BADCFE, 0x10325476, 0xC3D2E1F0))
    ensures Runs(h, ws, 16, Hash(0x20BDD62F, 0x196BEE77, 0x644A3DA5, 0x1181ED99, 0x18C623F9))
  {
    NextRuns(h, ws, 0, Hash(0x67452301, 0xEFCDAB89, 0x98BADCFE, 0x10325476, 0xC3D2E1F0), 0x61626380);
    NextRuns(h, ws, 1, Hash(0x0116FC33, 0x67452301, 0x7BF36AE2, 0x98BADCFE, 0x10325476), 0x00000000);
    NextRuns(h, ws, 2, Hash(0x8990536D, 0x0116FC33, 0x59D148C0, 0x7BF36AE2, 0x98BADCFE), 0x00000000);
    NextRuns(h, ws, 3, Hash(0xA1390F08, 0x8990536D, 0xC045BF0C, 0x59D148C0, 0x7BF36AE2), 0x00000000);
    NextRuns(h, ws, 4, Hash(0xCDD8E11B, 0xA1390F08, 0x626414DB, 0xC045BF0C, 0x59D148C0), 0x00000000);
    NextRuns(h, ws, 5, Hash(0xCFD499DE, 0xCDD8E11B, 0x284E43C2, 0x626414DB, 0xC045BF0C), 0x00000000);
    NextRuns(h, ws, 6, Hash(0x3FC7CA40, 0xCFD499DE, 0xF3763846, 0x284E43C2, 0x626414DB), 0x00000000);
    NextRuns(h, ws, 7, Hash(0x993E30C1, 0x3FC7CA40, 0xB3F52677, 0xF3763846, 0x284E43C2), 0x00000000);
    NextRuns(h, ws, 8, Hash(0x9E8C07D4, 0x993E30C1, 0x0FF1F290, 0xB3F52677, 0xF3763846), 0x00000000);
    NextRuns(h, ws, 9, Hash(0x4B6AE328, 0x9E8C07D4, 0x664F8C30, 0x0FF1F290, 0xB3F52677), 0x00000000);
    NextRuns(h, ws, 10, Hash(0x8351F929, 0x4B6AE328, 0x27A301F5, 0x664F8C30, 0x0FF1F290), 0x00000000);
    NextRuns(h, ws, 11, Hash(0xFBDA9E89, 0x8351F929, 0x12DAB8CA, 0x27A301F5, 0x664F8C30), 0x00000000);
    NextRuns(h, ws, 12, Hash(0x63188FE4, 0xFBDA9E89, 0x60D47E4A, 0x12DAB8CA, 0x27A301F5), 0x00000000);
    NextRuns(h, ws, 13, Hash(0x4607B664, 0x63188FE4, 0x7EF6A7A2, 0x60D47E4A, 0x12DAB8CA), 0x00000000);
    NextRuns(h, ws, 14, Hash(0x9128F695, 0x4607B664, 0x18C623F9, 0x7EF6A7A2, 0x60D47E4A), 0x00000000);
    NextRuns(h, ws, 15, Hash(0x196BEE77, 0x9128F695, 0x1181ED99, 0x18C623F9, 0x7EF6A7A2), 0x00000018);
  }

  lemma AbcRounds1(h: Hash<Word>, ws: seq<Word>)
    requires At(ws, 16, 0xC2C4C700) && At(ws, 17, 0x00000000) && At(ws, 18, 0x00000030) && At(ws, 19, 0x85898E01)
    requires At(ws, 20, 0x00000000) && At(ws, 21, 0x00000060) && At(ws, 22, 0x0B131C03) && At(ws, 23, 0x00000030)
    requires At(ws, 24, 0x85898EC1) && At(ws, 25, 0x16263806) && At(ws, 26, 0x00000000) && At(ws, 27, 0x00000180)
    requires At(ws, 28, 0x2C4C700C) && At(ws, 29, 0x000000F0) && At(ws, 30, 0x93AFB507) && At(ws, 31, 0x5898E048)
    requires Runs(h, ws, 16, Hash(0x20BDD62F, 0x196BEE77, 0x644A3DA5, 0x1181ED99, 0x18C623F9))
    ensures Runs(h, ws, 32, Hash(0x3B845D33, 0x1267B407, 0x717EEBD7, 0xA0DC2D4B, 0xD2AA1365))
  {
    NextRuns(h, ws, 16, Hash(0x20BDD62F, 0x196BEE77, 0x644A3DA5, 0x1181ED99, 0x18C623F9), 0xC2C4C700);
    NextRuns(h, ws, 17, Hash(0x4E925823, 0x20BDD62F, 0xC65AFB9D, 0x644A3DA5, 0x1181ED99), 0x00000000);
    NextRuns(h, ws, 18, Hash(0x82AA6728, 0x4E925823, 0xC82F758B, 0xC65AFB9D, 0x644A3DA5), 0x00000030);
    NextRuns(h, ws, 19, Hash(0xDC64901D, 0x82AA6728, 0xD3A49608, 0xC82F758B, 0xC65AFB9D), 0x85898E01);
    NextRuns(h, ws, 20, Hash(0xFD9E1D7D, 0xDC64901D, 0x20AA99CA, 0xD3A49608, 0xC82F758B), 0x00000000);
    NextRuns(h, ws, 21, Hash(0x1A37B0CA, 0xFD9E1D7D, 0x77192407, 0x20AA99CA, 0xD3A49608), 0x00000060);
    NextRuns(h, ws, 22, Hash(0x33A23BFC, 0x1A37B0CA, 0x7F67875F, 0x77192407, 0x20AA99CA), 0x0B131C03);
    NextRuns(h, ws, 23, Hash(0x21283486, 0x33A23BFC, 0x868DEC32, 0x7F67875F, 0x77192407), 0x00000030);
    NextRuns(h, ws, 24, Hash(0xD541F12D, 0x21283486, 0x0CE88EFF, 0x868DEC32, 0x7F67875F), 0x85898EC1);
    NextRuns(h, ws, 25, Hash(0xC7567DC6, 0xD541F12D, 0x884A0D21, 0x0CE88EFF, 0x868DEC32), 0x16263806);
    NextRuns(h, ws, 26, Hash(0x48413BA4, 0xC7567DC6, 0x75507C4B, 0x884A0D21, 0x0CE88EFF), 0x00000000);
    NextRuns(h, ws, 27, Hash(0xBE35FBD5, 0x48413BA4, 0xB1D59F71, 0x75507C4B, 0x884A0D21), 0x00000180);
    NextRuns(h, ws, 28, Hash(0x4AA84D97, 0xBE35FBD5, 0x12104EE9, 0xB1D59F71, 0x75507C4B), 0x2C4C700C);
    NextRuns(h, ws, 29, Hash(0x8370B52E, 0x4AA84D97, 0x6F8D7EF5, 0x12104EE9, 0xB1D59F71), 0x000000F0);
    NextRuns(h, ws, 30, Hash(0xC5FBAF5D, 0x8370B52E, 0xD2AA1365, 0x6F8D7EF5, 0x12104EE9), 0x93AFB507);
    NextRuns(h, ws, 31, Hash(0x1267B407, 0xC5FBAF5D, 0xA0DC2D4B, 0xD2AA1365, 0x6F8D7EF5), 0x5898E048);
  }

  lemma AbcRounds2(h: Hash<Word>, ws: seq<Word>)
    requires At(ws, 32, 0x8E9A9202) && At(ws, 33, 0x00000600) && At(ws, 34, 0xB131C0F0) && At(ws, 35, 0x16263BC6)
    requires At(ws, 36, 0x4EBED41E) && At(ws, 37, 0x626380A1) && At(ws, 38, 0x16263806) && At(ws, 39, 0x000018C0)
    requires At(ws, 40, 0xD2E138C4) && At(ws, 41, 0x00000F00) && At(ws, 42, 0x3AFB5079) && At(ws, 43, 0x898E04E5)
    requires At(ws, 44, 0xE2BA3C2B) && At(ws, 45, 0x000060C0) && At(ws, 46, 0x053A37CD) && At(ws, 47, 0x74458547)
    requires Runs(h, ws, 32, Hash(0x3B845D33, 0x1267B407, 0x717EEBD7, 0xA0DC2D4B, 0xD2AA1365))
    ensures Runs(h, ws, 48, Hash(0xBEAD02CA, 0xA01B846C, 0x8714787C, 0x503CA382, 0xFB86C6AB))
  {
    NextRuns(h, ws, 32, Hash(0x3B845D33, 0x1267B407, 0x717EEBD7, 0xA0DC2D4B, 0xD2AA1365), 0x8E9A9202);
    NextRuns(h, ws, 33, Hash(0x046FAA0A, 0x3B845D33, 0xC499ED01, 0x717EEBD7, 0xA0DC2D4B), 0x00000600);
    NextRuns(h, ws, 34, Hash(0x2C0EBC11, 0x046FAA0A, 0xCEE1174C, 0xC499ED01, 0x717EEBD7), 0xB131C0F0);
    NextRuns(h, ws, 35, Hash(0x21796AD4, 0x2C0EBC11, 0x811BEA82, 0xCEE1174C, 0xC499ED01), 0x16263BC6);
    NextRuns(h, ws, 36, Hash(0xDCBBB0CB, 0x21796AD4, 0x4B03AF04, 0x811BEA82, 0xCEE1174C), 0x4EBED41E);
    NextRuns(h, ws, 37, Hash(0x0F511FD8, 0xDCBBB0CB, 0x085E5AB5, 0x4B03AF04, 0x811BEA82), 0x626380A1);
    NextRuns(h, ws, 38, Hash(0xDC63973F, 0x0F511FD8, 0xF72EEC32, 0x085E5AB5, 0x4B03AF04), 0x16263806);
    NextRuns(h, ws, 39, Hash(0x4C986405, 0xDC63973F, 0x03D447F6, 0xF72EEC32, 0x085E5AB5), 0x000018C0);
    NextRuns(h, ws, 40, Hash(0x32DE1CBA, 0x4C986405, 0xF718E5CF, 0x03D447F6, 0xF72EEC32), 0xD2E138C4);
    NextRuns(h, ws, 41, Hash(0xFC87DEDF, 0x32DE1CBA, 0x53261901, 0xF718E5CF, 0x03D447F6), 0x00000F00);
    NextRuns(h, ws, 42, Hash(0x970A0D5C, 0xFC87DEDF, 0x8CB7872E, 0x53261901, 0xF718E5CF), 0x3AFB5079);
    NextRuns(h, ws, 43, Hash(0x7F193DC5, 0x970A0D5C, 0xFF21F7B7, 0x8CB7872E, 0x53261901), 0x898E04E5);
    NextRuns(h, ws, 44, Hash(0xEE1B1AAF, 0x7F193DC5, 0x25C28357, 0xFF21F7B7, 0x8CB7872E), 0xE2BA3C2B);
    NextRuns(h, ws, 45, Hash(0x40F28E09, 0xEE1B1AAF, 0x5FC64F71, 0x25C28357, 0xFF21F7B7), 0x000060C0);
    NextRuns(h, ws, 46, Hash(0x1C51E1F2, 0x40F28E09, 0xFB86C6AB, 0x5FC64F71, 0x25C28357), 0x053A37CD);
    NextRuns(h, ws, 47, Hash(0xA01B846C, 0x1C51E1F2, 0x503CA382, 0xFB86C6AB, 0x5FC64F71), 0x74458547);
  }

  lemma AbcRounds3(h: Hash<Word>, ws: seq<Word>)
    requires At(ws, 48, 0xDA9415ED) && At(ws, 49, 0x26380A16) && At(ws, 50, 0x626383A1) && At(ws, 51, 0x4EBF54DE)
    requires At(ws, 52, 0x3835B44B) && At(ws, 53, 0x0000F600) && At(ws, 54, 0x1E84C7A3) && At(ws, 55, 0x98E04D98)
    requires At(ws, 56, 0x651D16A0) && At(ws, 57, 0x62658CA1) && At(ws, 58, 0x458544D6) && At(ws, 59, 0x44584CB7)
    requires At(ws, 60, 0x7BA06619) && At(ws, 61, 0x6380AEA2) && At(ws, 62, 0x0AE55269) && At(ws, 63, 0x627B49A1)
    requires Runs(h, ws, 48, Hash(0xBEAD02CA, 0xA01B846C, 0x8714787C, 0x503CA382, 0xFB86C6AB))
    ensures Runs(h, ws, 64, Hash(0x6B61C9E1, 0xB66C020B, 0x9523272C, 0xF5D5B051, 0x8FD4B796))
  {
    NextRuns(h, ws, 48, Hash(0xBEAD02CA, 0xA01B846C, 0x8714787C, 0x503CA382, 0xFB86C6AB), 0xDA9415ED);
    NextRuns(h, ws, 49, Hash(0xBAF39337, 0xBEAD02CA, 0x2806E11B, 0x8714787C, 0x503CA382), 0x26380A16);
    NextRuns(h, ws, 50, Hash(0x120731C5, 0xBAF39337, 0xAFAB40B2, 0x2806E11B, 0x8714787C), 0x626383A1);
    NextRuns(h, ws, 51, Hash(0x641DB2CE, 0x120731C5, 0xEEBCE4CD, 0xAFAB40B2, 0x2806E11B), 0x4EBF54DE);
    NextRuns(h, ws, 52, Hash(0x3847AD66, 0x641DB2CE, 0x4481CC71, 0xEEBCE4CD, 0xAFAB40B2), 0x3835B44B);
    NextRuns(h, ws, 53, Hash(0xE490436D, 0x3847AD66, 0x99076CB3, 0x4481CC71, 0xEEBCE4CD), 0x0000F600);
    NextRuns(h, ws, 54, Hash(0x27E9F1D8, 0xE490436D, 0x8E11EB59, 0x99076CB3, 0x4481CC71), 0x1E84C7A3);
    NextRuns(h, ws, 55, Hash(0x7B71F76D, 0x27E9F1D8, 0x792410DB, 0x8E11EB59, 0x99076CB3), 0x98E04D98);
    NextRuns(h, ws, 56, Hash(0x5E6456AF, 0x7B71F76D, 0x09FA7C76, 0x792410DB, 0x8E11EB59), 0x651D16A0);
    NextRuns(h, ws, 57, Hash(0xC846093F, 0x5E6456AF, 0x5EDC7DDB, 0x09FA7C76, 0x792410DB), 0x62658CA1);
    NextRuns(h, ws, 58, Hash(0xD262FF50, 0xC846093F, 0xD79915AB, 0x5EDC7DDB, 0x09FA7C76), 0x458544D6);
    NextRuns(h, ws, 59, Hash(0x09D785FD, 0xD262FF50, 0xF211824F, 0xD79915AB, 0x5EDC7DDB), 0x44584CB7);
    NextRuns(h, ws, 60, Hash(0x3F52DE5A, 0x09D785FD, 0x3498BFD4, 0xF211824F, 0xD79915AB), 0x7BA06619);
    NextRuns(h, ws, 61, Hash(0xD756C147, 0x3F52DE5A, 0x4275E17F, 0x3498BFD4, 0xF211824F), 0x6380AEA2);
    NextRuns(h, ws, 62, Hash(0x548C9CB2, 0xD756C147, 0x8FD4B796, 0x4275E17F, 0x3498BFD4), 0x0AE55269);
    NextRuns(h, ws, 63, Hash(0xB66C020B, 0x548C9CB2, 0xF5D5B051, 0x8FD4B796, 0x4275E17F), 0x627B49A1);
  }

  lemma AbcRounds4(h: Hash<Word>, ws: seq<Word>)
    requires At(ws, 64, 0x7CD45C9D) && At(ws, 65, 0x000F0000) && At(ws, 66, 0xFB50753A) && At(ws, 67, 0xEC6765E8)
    requires At(ws, 68, 0xBA3C2BE2) && At(ws, 69, 0x0060C000) && At(ws, 70, 0x3A37CD05) && At(ws, 71, 0x458546F4)
    requires At(ws, 72, 0xB8599DD6) && At(ws, 73, 0x380A1A26) && At(ws, 74, 0x01E02203) && At(ws, 75, 0xE7CC3456)
    requires At(ws, 76, 0xE6E60B69) && At(ws, 77, 0x00F60A00) && At(ws, 78, 0x5795EF4F) && At(ws, 79, 0x822E0879)
    requires Runs(h, ws, 64, Hash(0x6B61C9E1, 0xB66C020B, 0x9523272C, 0xF5D5B051, 0x8FD4B796))
    ensures Runs(h, ws, 80, Hash(0x42541B35, 0x5738D5E1, 0x21834873, 0x681E6DF6, 0xD8FDF6AD))
  {
    NextRuns(h, ws, 64, Hash(0x6B61C9E1, 0xB66C020B, 0x9523272C, 0xF5D5B051, 0x8FD4B796), 0x7CD45C9D);
    NextRuns(h, ws, 65, Hash(0x19DFA7AC, 0x6B61C9E1, 0xED9B0082, 0x9523272C, 0xF5D5B051), 0x000F0000);
    NextRuns(h, ws, 66, Hash(0x101655F9, 0x19DFA7AC, 0x5AD87278, 0xED9B0082, 0x9523272C), 0xFB50753A);
    NextRuns(h, ws, 67, Hash(0x0C3DF2B4, 0x101655F9, 0x0677E9EB, 0x5AD87278, 0xED9B0082), 0xEC6765E8);
    NextRuns(h, ws, 68, Hash(0x78DD4D2B, 0x0C3DF2B4, 0x4405957E, 0x0677E9EB, 0x5AD87278), 0xBA3C2BE2);
    NextRuns(h, ws, 69, Hash(0x497093C0, 0x78DD4D2B, 0x030F7CAD, 0x4405957E, 0x0677E9EB), 0x0060C000);
    NextRuns(h, ws, 70, Hash(0x3F2588C2, 0x497093C0, 0xDE37534A, 0x030F7CAD, 0x4405957E), 0x3A37CD05);
    NextRuns(h, ws, 71, Hash(0xC199F8C7, 0x3F2588C2, 0x125C24F0, 0xDE37534A, 0x030F7CAD), 0x458546F4);
    NextRuns(h, ws, 72, Hash(0x39859DE7, 0xC199F8C7, 0x8FC96230, 0x125C24F0, 0xDE37534A), 0xB8599DD6);
    NextRuns(h, ws, 73, Hash(0xEDB42DE4, 0x39859DE7, 0xF0667E31, 0x8FC96230, 0x125C24F0), 0x380A1A26);
    NextRuns(h, ws, 74, Hash(0x11793F6F, 0xEDB42DE4, 0xCE616779, 0xF0667E31, 0x8FC96230), 0x01E02203);
    NextRuns(h, ws, 75, Hash(0x5EE76897, 0x11793F6F, 0x3B6D0B79, 0xCE616779, 0xF0667E31), 0xE7CC3456);
    NextRuns(h, ws, 76, Hash(0x63F7DAB7, 0x5EE76897, 0xC45E4FDB, 0x3B6D0B79, 0xCE616779), 0xE6E60B69);
    NextRuns(h, ws, 77, Hash(0xA079B7D9, 0x63F7DAB7, 0xD7B9DA25, 0xC45E4FDB, 0x3B6D0B79), 0x00F60A00);
    NextRuns(h, ws, 78, Hash(0x860D21CC, 0xA079B7D9, 0xD8FDF6AD, 0xD7B9DA25, 0xC45E4FDB), 0x5795EF4F);
    NextRuns(h, ws, 79, Hash(0x5738D5E1, 0x860D21CC, 0x681E6DF6, 0xD8FDF6AD, 0xD7B9DA25), 0x822E0879);
  }

  const KEY_0: seq<Word> := [
    0x6447686C, 0x49484E68, 0x62584273, 0x5A534275, 0x6232356A, 0x5A513D3D, 0x32353845, 0x41464135,
    0x2D453931, 0x342D3437, 0x44412D39, 0x3543412D, 0x43354142, 0x30444338, 0x35423131, 0x80000000]

  const KEY_1: seq<Word> := [
    0x363CA02C, 0x24E81236, 0x8856B441, 0x06FB3C92, 0x6FB4BCB6, 0x460B16E3, 0x599219AE, 0x35BF9369,
    0x3267458E, 0xF828FD04, 0x753A96A7, 0x6336F612, 0xC3D66383, 0x06EB86F9, 0x73B4FD42, 0xA503C5B8]

  const KEY_2: seq<Word> := [
    0x15CDAE35, 0x531E5DC5, 0x6FB6B7D0, 0x6C16E4AC, 0x4DDD36BD, 0x35D36946, 0xE8AE8B9C, 0x4A933AD0,
    0xCE8628B4, 0x415DBA9E, 0x2792F049, 0x8E9B79E7, 0x79C425C5, 0x6353B49D, 0x00994218, 0x8A950ED1]

  const KEY_3: seq<Word> := [
    0xAF5D0B99, 0xFD9883DE, 0x1ED8FFEB, 0xF007FF28, 0x425E3674, 0x059631C0, 0xAD6C3C31, 0x860B71D7,
    0x87BFC548, 0x3E64F92D, 0x8D0AB761, 0x34E1EE35, 0x0ACF5108, 0xC2B479DA, 0x6C93370A, 0xF7935BA1]

  const KEY_4: seq<Word> := [
    0xE91C91C1, 0xBED165A2, 0x4C3E4ABE, 0x50D96238, 0xB6587DDE, 0x1A2EE6E6, 0x2D335896, 0xF3495D0B,
    0xF30E0A1D, 0x32CE5459, 0x7165E3B8, 0xAB05FF94, 0xC5949F0B, 0xBCD84E4A, 0x07720392, 0xFF3FF806]

  lemma KeyWords1()
    ensures Follows(KEY_0, KEY_1)
  {
  }

  lemma KeyWords2()
    ensures Follows(KEY_1, KEY_2)
  {
  }

  lemma KeyWords3()
    ensures Follows(KEY_2, KEY_3)
  {
  }

  lemma KeyWords4()
    ensures Follows(KEY_3, KEY_4)
  {
  }

  lemma KeyRounds0(h: Hash<Word>, ws: seq<Word>)
    requires At(ws, 0, 0x6447686C) && At(ws, 1, 0x49484E68) && At(ws, 2, 0x62584273) && At(ws, 3, 0x5A534275)
    requires At(ws, 4, 0x6232356A) && At(ws, 5, 0x5A513D3D) && At(ws, 6, 0x32353845) && At(ws, 7, 0x41464135)
    requires At(ws, 8, 0x2D453931) && At(ws, 9, 0x342D3437) && At(ws, 10, 0x44412D39) && At(ws, 11, 0x3543412D)
    requires At(ws, 12, 0x43354142) && At(ws, 13, 0x30444338) && At(ws, 14, 0x35423131) && At(ws, 15, 0x80000000)
    requires Runs(h, ws, 0, Hash(0x67452301, 0xEFCDAB89, 0x98BADCFE, 0x10325476, 0xC3D2E1F0))
    ensures Runs(h, ws, 16, Hash(0xA004C468, 0xE922CC9D, 0xAB86825B, 0xD86F6CAF, 0x8D33AE61))
  {
    NextRuns(h, ws, 0, Hash(0x67452301, 0xEFCDAB89, 0x98BADCFE, 0x10325476, 0xC3D2E1F0), 0x6447686C);
    NextRuns(h, ws, 1, Hash(0x03FC011F, 0x67452301, 0x7BF36AE2, 0x98BADCFE, 0x10325476), 0x49484E68);
    NextRuns(h, ws, 2, Hash(0x2F793F55, 0x03FC011F, 0x59D148C0, 0x7BF36AE2, 0x98BADCFE), 0x62584273);
    NextRuns(h, ws, 3, Hash(0xBE90EE8F, 0x2F793F55, 0xC0FF0047, 0x59D148C0, 0x7BF36AE2), 0x5A534275);
    NextRuns(h, ws, 4, Hash(0x53E039AC, 0xBE90EE8F, 0x4BDE4FD5, 0xC0FF0047, 0x59D148C0), 0x6232356A);
    NextRuns(h, ws, 5, Hash(0xDD8C7C12, 0x53E039AC, 0xEFA43BA3, 0x4BDE4FD5, 0xC0FF0047), 0x5A513D3D);
    NextRuns(h, ws, 6, Hash(0x7320B969, 0xDD8C7C12, 0x14F80E6B, 0xEFA43BA3, 0x4BDE4FD5), 0x32353845);
    NextRuns(h, ws, 7, Hash(0x73553E84, 0x7320B969, 0xB7631F04, 0x14F80E6B, 0xEFA43BA3), 0x41464135);
    NextRuns(h, ws, 8, Hash(0x2E0CE601, 0x73553E84, 0x5CC82E5A, 0xB7631F04, 0x14F80E6B), 0x2D453931);
    NextRuns(h, ws, 9, Hash(0x32BEB05A, 0x2E0CE601, 0x1CD54FA1, 0x5CC82E5A, 0xB7631F04), 0x342D3437);
    NextRuns(h, ws, 10, Hash(0xFAAD2675, 0x32BEB05A, 0x4B833980, 0x1CD54FA1, 0x5CC82E5A), 0x44412D39);
    NextRuns(h, ws, 11, Hash(0x5FF4238C, 0xFAAD2675, 0x8CAFAC16, 0x4B833980, 0x1CD54FA1), 0x3543412D);
    NextRuns(h, ws, 12, Hash(0x34CEB986, 0x5FF4238C, 0x7EAB499D, 0x8CAFAC16, 0x4B833980), 0x43354142);
    NextRuns(h, ws, 13, Hash(0x61BDB2BF, 0x34CEB986, 0x17FD08E3, 0x7EAB499D, 0x8CAFAC16), 0x30444338);
    NextRuns(h, ws, 14, Hash(0xAE1A096E, 0x61BDB2BF, 0x8D33AE61, 0x17FD08E3, 0x7EAB499D), 0x35423131);
    NextRuns(h, ws, 15, Hash(0xE922CC9D, 0xAE1A096E, 0xD86F6CAF, 0x8D33AE61, 0x17FD08E3), 0x80000000);
  }

  lemma KeyRounds1(h: Hash<Word>, ws: seq<Word>)
    requires At(ws, 16, 0x363CA02C) && At(ws, 17, 0x24E81236) && At(ws, 18, 0x8856B441) && At(ws, 19, 0x06FB3C92)
    requires At(ws, 20, 0x6FB4BCB6) && At(ws, 21, 0x460B16E3) && At(ws, 22, 0x599219AE) && At(ws, 23, 0x35BF9369)
    requires At(ws, 24, 0x3267458E) && At(ws, 25, 0xF828FD04) && At(ws, 26, 0x753A96A7) && At(ws, 27, 0x6336F612)
    requires At(ws, 28, 0xC3D66383) && At(ws, 29, 0x06EB86F9) && At(ws, 30, 0x73B4FD42) && At(ws, 31, 0xA503C5B8)
    requires Runs(h, ws, 16, Hash(0xA004C468, 0xE922CC9D, 0xAB86825B, 0xD86F6CAF, 0x8D33AE61))
    ensures Runs(h, ws, 32, Hash(0xA6680A1F, 0xB7DABC8B, 0x4206D8F9, 0xC6AEC70D, 0x95C7DF60))
  {
    NextRuns(h, ws, 16, Hash(0xA004C468, 0xE922CC9D, 0xAB86825B, 0xD86F6CAF, 0x8D33AE61), 0x363CA02C);
    NextRuns(h, ws, 17, Hash(0xD7DAF575, 0xA004C468, 0x7A48B327, 0xAB86825B, 0xD86F6CAF), 0x24E81236);
    NextRuns(h, ws, 18, Hash(0x7EBB296B, 0xD7DAF575, 0x2801311A, 0x7A48B327, 0xAB86825B), 0x8856B441);
    NextRuns(h, ws, 19, Hash(0x8DC510B6, 0x7EBB296B, 0x75F6BD5D, 0x2801311A, 0x7A48B327), 0x06FB3C92);
    NextRuns(h, ws, 20, Hash(0x091AB97C, 0x8DC510B6, 0xDFAECA5A, 0x75F6BD5D, 0x2801311A), 0x6FB4BCB6);
    NextRuns(h, ws, 21, Hash(0x518470A3, 0x091AB97C, 0xA371442D, 0xDFAECA5A, 0x75F6BD5D), 0x460B16E3);
    NextRuns(h, ws, 22, Hash(0xD12F0B56, 0x518470A3, 0x0246AE5F, 0xA371442D, 0xDFAECA5A), 0x599219AE);
    NextRuns(h, ws, 23, Hash(0xBEAFD554, 0xD12F0B56, 0xD4611C28, 0x0246AE5F, 0xA371442D), 0x35BF9369);
    NextRuns(h, ws, 24, Hash(0x250E26EF, 0xBEAFD554, 0xB44BC2D5, 0xD4611C28, 0x0246AE5F), 0x3267458E);
    NextRuns(h, ws, 25, Hash(0x23D1C91B, 0x250E26EF, 0x2FABF555, 0xB44BC2D5, 0xD4611C28), 0xF828FD04);
    NextRuns(h, ws, 26, Hash(0x748B39A0, 0x23D1C91B, 0xC94389BB, 0x2FABF555, 0xB44BC2D5), 0x753A96A7);
    NextRuns(h, ws, 27, Hash(0xEF012F20, 0x748B39A0, 0xC8F47246, 0xC94389BB, 0x2FABF555), 0x6336F612);
    NextRuns(h, ws, 28, Hash(0x571F7D82, 0xEF012F20, 0x1D22CE68, 0xC8F47246, 0xC94389BB), 0xC3D66383);
    NextRuns(h, ws, 29, Hash(0x1ABB1C37, 0x571F7D82, 0x3BC04BC8, 0x1D22CE68, 0xC8F47246), 0x06EB86F9);
    NextRuns(h, ws, 30, Hash(0x081B63E5, 0x1ABB1C37, 0x95C7DF60, 0x3BC04BC8, 0x1D22CE68), 0x73B4FD42);
    NextRuns(h, ws, 31, Hash(0xB7DABC8B, 0x081B63E5, 0xC6AEC70D, 0x95C7DF60, 0x3BC04BC8), 0xA503C5B8);
  }

  lemma KeyRounds2(h: Hash<Word>, ws: seq<Word>)
    requires At(ws, 32, 0x15CDAE35) && At(ws, 33, 0x531E5DC5) && At(ws, 34, 0x6FB6B7D0) && At(ws, 35, 0x6C16E4AC)
    requires At(ws, 36, 0x4DDD36BD) && At(ws, 37, 0x35D36946) && At(ws, 38, 0xE8AE8B9C) && At(ws, 39, 0x4A933AD0)
    requires At(ws, 40, 0xCE8628B4) && At(ws, 41, 0x415DBA9E) && At(ws, 42, 0x2792F049) && At(ws, 43, 0x8E9B79E7)
    requires At(ws, 44, 0x79C425C5) && At(ws, 45, 0x6353B49D) && At(ws, 46, 0x00994218) && At(ws, 47, 0x8A950ED1)
    requires Runs(h, ws, 32, Hash(0xA6680A1F, 0xB7DABC8B, 0x4206D8F9, 0xC6AEC70D, 0x95C7DF60))
    ensures Runs(h, ws, 48, Hash(0xABE1748A, 0xDEE4B7A8, 0x5CBFCCD3, 0x97D7CD14, 0xDB71A8F5))
  {
    NextRuns(h, ws, 32, Hash(0xA6680A1F, 0xB7DABC8B, 0x4206D8F9, 0xC6AEC70D, 0x95C7DF60), 0x15CDAE35);
    NextRuns(h, ws, 33, Hash(0x1AE360A9, 0xA6680A1F, 0xEDF6AF22, 0x4206D8F9, 0xC6AEC70D), 0x531E5DC5);
    NextRuns(h, ws, 34, Hash(0xEEABA35A, 0x1AE360A9, 0xE99A0287, 0xEDF6AF22, 0x4206D8F9), 0x6FB6B7D0);
    NextRuns(h, ws, 35, Hash(0x149BB4D3, 0xEEABA35A, 0x46B8D82A, 0xE99A0287, 0xEDF6AF22), 0x6C16E4AC);
    NextRuns(h, ws, 36, Hash(0x9DE793C8, 0x149BB4D3, 0xBBAAE8D6, 0x46B8D82A, 0xE99A0287), 0x4DDD36BD);
    NextRuns(h, ws, 37, Hash(0x4CCD2227, 0x9DE793C8, 0xC526ED34, 0xBBAAE8D6, 0x46B8D82A), 0x35D36946);
    NextRuns(h, ws, 38, Hash(0x68760824, 0x4CCD2227, 0x2779E4F2, 0xC526ED34, 0xBBAAE8D6), 0xE8AE8B9C);
    NextRuns(h, ws, 39, Hash(0xD0869081, 0x68760824, 0xD3334889, 0x2779E4F2, 0xC526ED34), 0x4A933AD0);
    NextRuns(h, ws, 40, Hash(0x2BA2C83E, 0xD0869081, 0x1A1D8209, 0xD3334889, 0x2779E4F2), 0xCE8628B4);
    NextRuns(h, ws, 41, Hash(0xCB8C52D0, 0x2BA2C83E, 0x7421A420, 0x1A1D8209, 0xD3334889), 0x415DBA9E);
    NextRuns(h, ws, 42, Hash(0x4F589A44, 0xCB8C52D0, 0x8AE8B20F, 0x7421A420, 0x1A1D8209), 0x2792F049);
    NextRuns(h, ws, 43, Hash(0x868829B7, 0x4F589A44, 0x32E314B4, 0x8AE8B20F, 0x7421A420), 0x8E9B79E7);
    NextRuns(h, ws, 44, Hash(0x6DC6A3D7, 0x868829B7, 0x13D62691, 0x32E314B4, 0x8AE8B20F), 0x79C425C5);
    NextRuns(h, ws, 45, Hash(0x5F5F3452, 0x6DC6A3D7, 0xE1A20A6D, 0x13D62691, 0x32E314B4), 0x6353B49D);
    NextRuns(h, ws, 46, Hash(0x72FF334D, 0x5F5F3452, 0xDB71A8F5, 0xE1A20A6D, 0x13D62691), 0x00994218);
    NextRuns(h, ws, 47, Hash(0xDEE4B7A8, 0x72FF334D, 0x97D7CD14, 0xDB71A8F5, 0xE1A20A6D), 0x8A950ED1);
  }

  lemma KeyRounds3(h: Hash<Word>, ws: seq<Word>)
    requires At(ws, 48, 0xAF5D0B99) && At(ws, 49, 0xFD9883DE) && At(ws, 50, 0x1ED8FFEB) && At(ws, 51, 0xF007FF28)
    requires At(ws, 52, 0x425E3674) && At(ws, 53, 0x059631C0) && At(ws, 54, 0xAD6C3C31) && At(ws, 55, 0x860B71D7)
    requires At(ws, 56, 0x87BFC548) && At(ws, 57, 0x3E64F92D) && At(ws, 58, 0x8D0AB761) && At(ws, 59, 0x34E1EE35)
    requires At(ws, 60, 0x0ACF5108) && At(ws, 61, 0xC2B479DA) && At(ws, 62, 0x6C93370A) && At(ws, 63, 0xF7935BA1)
    requires Runs(h, ws, 48, Hash(0xABE1748A, 0xDEE4B7A8, 0x5CBFCCD3, 0x97D7CD14, 0xDB71A8F5))
    ensures Runs(h, ws, 64, Hash(0x685E2FF6, 0x840054D3, 0xE43C0363, 0x3350802E, 0x921CB616))
  {
    NextRuns(h, ws, 48, Hash(0xABE1748A, 0xDEE4B7A8, 0x5CBFCCD3, 0x97D7CD14, 0xDB71A8F5), 0xAF5D0B99);
    NextRuns(h, ws, 49, Hash(0x7510D04F, 0xABE1748A, 0x37B92DEA, 0x5CBFCCD3, 0x97D7CD14), 0xFD9883DE);
    NextRuns(h, ws, 50, Hash(0x065F8486, 0x7510D04F, 0xAAF85D22, 0x37B92DEA, 0x5CBFCCD3), 0x1ED8FFEB);
    NextRuns(h, ws, 51, Hash(0x0E5D77C4, 0x065F8486, 0xDD443413, 0xAAF85D22, 0x37B92DEA), 0xF007FF28);
    NextRuns(h, ws, 52, Hash(0x10E7F671, 0x0E5D77C4, 0x8197E121, 0xDD443413, 0xAAF85D22), 0x425E3674);
    NextRuns(h, ws, 53, Hash(0x26C69395, 0x10E7F671, 0x03975DF1, 0x8197E121, 0xDD443413), 0x059631C0);
    NextRuns(h, ws, 54, Hash(0x4C608AC4, 0x26C69395, 0x4439FD9C, 0x03975DF1, 0x8197E121), 0xAD6C3C31);
    NextRuns(h, ws, 55, Hash(0x50C9104C, 0x4C608AC4, 0x49B1A4E5, 0x4439FD9C, 0x03975DF1), 0x860B71D7);
    NextRuns(h, ws, 56, Hash(0x7E1242F2, 0x50C9104C, 0x131822B1, 0x49B1A4E5, 0x4439FD9C), 0x87BFC548);
    NextRuns(h, ws, 57, Hash(0x6EF6FEF4, 0x7E1242F2, 0x14324413, 0x131822B1, 0x49B1A4E5), 0x3E64F92D);
    NextRuns(h, ws, 58, Hash(0x0C247C2E, 0x6EF6FEF4, 0x9F8490BC, 0x14324413, 0x131822B1), 0x8D0AB761);
    NextRuns(h, ws, 59, Hash(0xD284F163, 0x0C247C2E, 0x1BBDBFBD, 0x9F8490BC, 0x14324413), 0x34E1EE35);
    NextRuns(h, ws, 60, Hash(0x4872D85A, 0xD284F163, 0x83091F0B, 0x1BBDBFBD, 0x9F8490BC), 0x0ACF5108);
    NextRuns(h, ws, 61, Hash(0xCD4200B8, 0x4872D85A, 0xF4A13C58, 0x83091F0B, 0x1BBDBFBD), 0xC2B479DA);
    NextRuns(h, ws, 62, Hash(0x90F00D8F, 0xCD4200B8, 0x921CB616, 0xF4A13C58, 0x83091F0B), 0x6C93370A);
    NextRuns(h, ws, 63, Hash(0x840054D3, 0x90F00D8F, 0x3350802E, 0x921CB616, 0xF4A13C58), 0xF7935BA1);
  }

  lemma KeyRounds4(h: Hash<Word>, ws: seq<Word>)
    requires At(ws, 64, 0xE91C91C1) && At(ws, 65, 0xBED165A2) && At(ws, 66, 0x4C3E4ABE) && At(ws, 67, 0x50D96238)
    requires At(ws, 68, 0xB6587DDE) && At(ws, 69, 0x1A2EE6E6) && At(ws, 70, 0x2D335896) && At(ws, 71, 0xF3495D0B)
    requires At(ws, 72, 0xF30E0A1D) && At(ws, 73, 0x32CE5459) && At(ws, 74, 0x7165E3B8) && At(ws, 75, 0xAB05FF94)
    requires At(ws, 76, 0xC5949F0B) && At(ws, 77, 0xBCD84E4A) && At(ws, 78, 0x07720392) && At(ws, 79, 0xFF3FF806)
    requires Runs(h, ws, 64, Hash(0x685E2FF6, 0x840054D3, 0xE43C0363, 0x3350802E, 0x921CB616))
    ensures Runs(h, ws, 80, Hash(0xF48A5426, 0x835995E1, 0x25C11EFB, 0x4A45C402, 0x9A73C2F2))
  {
    NextRuns(h, ws, 64, Hash(0x685E2FF6, 0x840054D3, 0xE43C0363, 0x3350802E, 0x921CB616), 0xE91C91C1);
    NextRuns(h, ws, 65, Hash(0xA4CEE018, 0x685E2FF6, 0xE1001534, 0xE43C0363, 0x3350802E), 0xBED165A2);
    NextRuns(h, ws, 66, Hash(0xC3C2E45B, 0xA4CEE018, 0x9A178BFD, 0xE1001534, 0xE43C0363), 0x4C3E4ABE);
    NextRuns(h, ws, 67, Hash(0x53131A40, 0xC3C2E45B, 0x2933B806, 0x9A178BFD, 0xE1001534), 0x50D96238);
    NextRuns(h, ws, 68, Hash(0xCF8658EC, 0x53131A40, 0xF0F0B916, 0x2933B806, 0x9A178BFD), 0xB6587DDE);
    NextRuns(h, ws, 69, Hash(0x966E049A, 0xCF8658EC, 0x14C4C690, 0xF0F0B916, 0x2933B806), 0x1A2EE6E6);
    NextRuns(h, ws, 70, Hash(0x07381B7E, 0x966E049A, 0x33E1963B, 0x14C4C690, 0xF0F0B916), 0x2D335896);
    NextRuns(h, ws, 71, Hash(0x80D59773, 0x07381B7E, 0xA59B8126, 0x33E1963B, 0x14C4C690), 0xF3495D0B);
    NextRuns(h, ws, 72, Hash(0x7E65E044, 0x80D59773, 0x81CE06DF, 0xA59B8126, 0x33E1963B), 0xF30E0A1D);
    NextRuns(h, ws, 73, Hash(0x628E7B47, 0x7E65E044, 0xE03565DC, 0x81CE06DF, 0xA59B8126), 0x32CE5459);
    NextRuns(h, ws, 74, Hash(0x143A8388, 0x628E7B47, 0x1F997811, 0xE03565DC, 0x81CE06DF), 0x7165E3B8);
    NextRuns(h, ws, 75, Hash(0xE20983F9, 0x143A8388, 0xD8A39ED1, 0x1F997811, 0xE03565DC), 0xAB05FF94);
    NextRuns(h, ws, 76, Hash(0x69CF0BCA, 0xE20983F9, 0x050EA0E2, 0xD8A39ED1, 0x1F997811), 0xC5949F0B);
    NextRuns(h, ws, 77, Hash(0x29171009, 0x69CF0BCA, 0x788260FE, 0x050EA0E2, 0xD8A39ED1), 0xBCD84E4A);
    NextRuns(h, ws, 78, Hash(0x97047BEC, 0x29171009, 0x9A73C2F2, 0x788260FE, 0x050EA0E2), 0x07720392);
    NextRuns(h, ws, 79, Hash(0x835995E1, 0x97047BEC, 0x4A45C402, 0x9A73C2F2, 0x788260FE), 0xFF3FF806);
  }

  const END_0: seq<Word> := [
    0x00000000, 0x00000000, 0x00000000, 0x00000000, 0x00000000, 0x00000000, 0x00000000, 0x00000000,
    0x00000000, 0x00000000, 0x00000000, 0x00000000, 0x00000000, 0x00000000, 0x00000000, 0x000001E0]

  const END_1: seq<Word> := [
    0x00000000, 0x00000000, 0x000003C0, 0x00000000, 0x00000000, 0x00000780, 0x00000000, 0x000003C0,
    0x00000F00, 0x00000000, 0x00000000, 0x00001E00, 0x00000000, 0x00000CC0, 0x00003C00, 0x00000440]

  const END_2: seq<Word> := [
    0x00000000, 0x00007800, 0x00000F00, 0x00003300, 0x0000F000, 0x00000F00, 0x00000000, 0x0001EF00,
    0x00000000, 0x0000CC00, 0x0003C000, 0x00004380, 0x00000000, 0x00078F00, 0x0000FF00, 0x00032680]

  const END_3: seq<Word> := [
    0x000F0000, 0x0000F000, 0x00003300, 0x001EFF00, 0x00000000, 0x000CB800, 0x003C0000, 0x00040B00,
    0x0000F000, 0x0078FF00, 0x000FF000, 0x00338700, 0x00F00000, 0x000FC300, 0x0000F000, 0x01EFBB00]

  const END_4: seq<Word> := [
    0x00000000, 0x00CC0000, 0x03C0F000, 0x00438000, 0x00000000, 0x078F0000, 0x00FF0000, 0x03269E00,
    0x0F000000, 0x00F0F000, 0x00333C00, 0x1EFF8800, 0x00000000, 0x0CB88800, 0x3C00F000, 0x040A4A00]

  lemma EndWords1()
    ensures Follows(END_0, END_1)
  {
  }

  lemma EndWords2()
    ensures Follows(END_1, END_2)
  {
  }

  lemma EndWords3()
    ensures Follows(END_2, END_3)
  {
  }

  lemma EndWords4()
    ensures Follows(END_3, END_4)
  {
  }

  lemma EndRounds0(h: Hash<Word>, ws: seq<Word>)
    requires At(ws, 0, 0x00000000) && At(ws, 1, 0x00000000) && At(ws, 2, 0x00000000) && At(ws, 3, 0x00000000)
    requires At(ws, 4, 0x00000000) && At(ws, 5, 0x00000000) && At(ws, 6, 0x00000000) && At(ws, 7, 0x00000000)
    requires At(ws, 8, 0x00000000) && At(ws, 9, 0x00000000) && At(ws, 10, 0x00000000) && At(ws, 11, 0x00000000)
    requires At(ws, 12, 0x00000000) && At(ws, 13, 0x00000000) && At(ws, 14, 0x00000000) && At(ws, 15, 0x000001E0)
    requires Runs(h, ws, 0, Hash(0x5BCF7727, 0x7327416A, 0xBE7BFBF9, 0x5A781878, 0x5E46A4E2))
    ensures Runs(h, ws, 16, Hash(0x986DF268, 0x990B7BE7, 0xAB50FCE7, 0x195DB4B7, 0x4941806B))
  {
    NextRuns(h, ws, 0, Hash(0x5BCF7727, 0x7327416A, 0xBE7BFBF9, 0x5A781878, 0x5E46A4E2), 0x00000000);
    NextRuns(h, ws, 1, Hash(0x6D335CDE, 0x5BCF7727, 0x9CC9D05A, 0xBE7BFBF9, 0x5A781878), 0x00000000);
    NextRuns(h, ws, 2, Hash(0x186006B8, 0x6D335CDE, 0xD6F3DDC9, 0x9CC9D05A, 0xBE7BFBF9), 0x00000000);
    NextRuns(h, ws, 3, Hash(0xF9FB295D, 0x186006B8, 0x9B4CD737, 0xD6F3DDC9, 0x9CC9D05A), 0x00000000);
    NextRuns(h, ws, 4, Hash(0x15855523, 0xF9FB295D, 0x061801AE, 0x9B4CD737, 0xD6F3DDC9), 0x00000000);
    NextRuns(h, ws, 5, Hash(0xE43DD2F2, 0x15855523, 0x7E7ECA57, 0x061801AE, 0x9B4CD737), 0x00000000);
    NextRuns(h, ws, 6, Hash(0x93A5EFBB, 0xE43DD2F2, 0xC5615548, 0x7E7ECA57, 0x061801AE), 0x00000000);
    NextRuns(h, ws, 7, Hash(0xB3BBCAFE, 0x93A5EFBB, 0xB90F74BC, 0xC5615548, 0x7E7ECA57), 0x00000000);
    NextRuns(h, ws, 8, Hash(0x25C018BE, 0xB3BBCAFE, 0xE4E97BEE, 0xB90F74BC, 0xC5615548), 0x00000000);
    NextRuns(h, ws, 9, Hash(0x80946593, 0x25C018BE, 0xACEEF2BF, 0xE4E97BEE, 0xB90F74BC), 0x00000000);
    NextRuns(h, ws, 10, Hash(0x0B0814C3, 0x80946593, 0x8970062F, 0xACEEF2BF, 0xE4E97BEE), 0x00000000);
    NextRuns(h, ws, 11, Hash(0x4CE92417, 0x0B0814C3, 0xE0251964, 0x8970062F, 0xACEEF2BF), 0x00000000);
    NextRuns(h, ws, 12, Hash(0x250601AD, 0x4CE92417, 0xC2C20530, 0xE0251964, 0x8970062F), 0x00000000);
    NextRuns(h, ws, 13, Hash(0x6576D2DC, 0x250601AD, 0xD33A4905, 0xC2C20530, 0xE0251964), 0x00000000);
    NextRuns(h, ws, 14, Hash(0xAD43F39E, 0x6576D2DC, 0x4941806B, 0xD33A4905, 0xC2C20530), 0x00000000);
    NextRuns(h, ws, 15, Hash(0x990B7BE7, 0xAD43F39E, 0x195DB4B7, 0x4941806B, 0xD33A4905), 0x000001E0);
  }

  lemma EndRounds1(h: Hash<Word>, ws: seq<Word>)
    requires At(ws, 16, 0x00000000) && At(ws, 17, 0x00000000) && At(ws, 18, 0x000003C0) && At(ws, 19, 0x00000000)
    requires At(ws, 20, 0x00000000) && At(ws, 21, 0x00000780) && At(ws, 22, 0x00000000) && At(ws, 23, 0x000003C0)
    requires At(ws, 24, 0x00000F00) && At(ws, 25, 0x00000000) && At(ws, 26, 0x00000000) && At(ws, 27, 0x00001E00)
    requires At(ws, 28, 0x00000000) && At(ws, 29, 0x00000CC0) && At(ws, 30, 0x00003C00) && At(ws, 31, 0x00000440)
    requires Runs(h, ws, 16, Hash(0x986DF268, 0x990B7BE7, 0xAB50FCE7, 0x195DB4B7, 0x4941806B))
    ensures Runs(h, ws, 32, Hash(0x3CF6EB58, 0xF4DDD7B7, 0xC90FB815, 0xBD5F2D4F, 0xE4C9F7DB))
  {
    NextRuns(h, ws, 16, Hash(0x986DF268, 0x990B7BE7, 0xAB50FCE7, 0x195DB4B7, 0x4941806B), 0x00000000);
    NextRuns(h, ws, 17, Hash(0x3AD7440E, 0x986DF268, 0xE642DEF9, 0xAB50FCE7, 0x195DB4B7), 0x00000000);
    NextRuns(h, ws, 18, Hash(0x72198F06, 0x3AD7440E, 0x261B7C9A, 0xE642DEF9, 0xAB50FCE7), 0x000003C0);
    NextRuns(h, ws, 19, Hash(0x2F193A09, 0x72198F06, 0x8EB5D103, 0x261B7C9A, 0xE642DEF9), 0x00000000);
    NextRuns(h, ws, 20, Hash(0x2A008B51, 0x2F193A09, 0x9C8663C1, 0x8EB5D103, 0x261B7C9A), 0x00000000);
    NextRuns(h, ws, 21, Hash(0x12315B2B, 0x2A008B51, 0x4BC64E82, 0x9C8663C1, 0x8EB5D103), 0x00000780);
    NextRuns(h, ws, 22, Hash(0x40FBCF98, 0x12315B2B, 0x4A8022D4, 0x4BC64E82, 0x9C8663C1), 0x00000000);
    NextRuns(h, ws, 23, Hash(0x3E5179E7, 0x40FBCF98, 0xC48C56CA, 0x4A8022D4, 0x4BC64E82), 0x000003C0);
    NextRuns(h, ws, 24, Hash(0x53C73650, 0x3E5179E7, 0x103EF3E6, 0xC48C56CA, 0x4A8022D4), 0x00000F00);
    NextRuns(h, ws, 25, Hash(0x1D24C44A, 0x53C73650, 0xCF945E79, 0x103EF3E6, 0xC48C56CA), 0x00000000);
    NextRuns(h, ws, 26, Hash(0x646C677D, 0x1D24C44A, 0x14F1CD94, 0xCF945E79, 0x103EF3E6), 0x00000000);
    NextRuns(h, ws, 27, Hash(0xD2E726DA, 0x646C677D, 0x87493112, 0x14F1CD94, 0xCF945E79), 0x00001E00);
    NextRuns(h, ws, 28, Hash(0x9327DF6F, 0xD2E726DA, 0x591B19DF, 0x87493112, 0x14F1CD94), 0x00000000);
    NextRuns(h, ws, 29, Hash(0xF57CB53E, 0x9327DF6F, 0xB4B9C9B6, 0x591B19DF, 0x87493112), 0x00000CC0);
    NextRuns(h, ws, 30, Hash(0x243EE057, 0xF57CB53E, 0xE4C9F7DB, 0xB4B9C9B6, 0x591B19DF), 0x00003C00);
    NextRuns(h, ws, 31, Hash(0xF4DDD7B7, 0x243EE057, 0xBD5F2D4F, 0xE4C9F7DB, 0xB4B9C9B6), 0x00000440);
  }

  lemma EndRounds2(h: Hash<Word>, ws: seq<Word>)
    requires At(ws, 32, 0x00000000) && At(ws, 33, 0x00007800) && At(ws, 34, 0x00000F00) && At(ws, 35, 0x00003300)
    requires At(ws, 36, 0x0000F000) && At(ws, 37, 0x00000F00) && At(ws, 38, 0x00000000) && At(ws, 39, 0x0001EF00)
    requires At(ws, 40, 0x00000000) && At(ws, 41, 0x0000CC00) && At(ws, 42, 0x0003C000) && At(ws, 43, 0x00004380)
    requires At(ws, 44, 0x00000000) && At(ws, 45, 0x00078F00) && At(ws, 46, 0x0000FF00) && At(ws, 47, 0x00032680)
    requires Runs(h, ws, 32, Hash(0x3CF6EB58, 0xF4DDD7B7, 0xC90FB815, 0xBD5F2D4F, 0xE4C9F7DB))
    ensures Runs(h, ws, 48, Hash(0xA3EF857E, 0xC8CDA3DA, 0xCEF6480E, 0xFF1EF4D7, 0xC7A4D2B3))
  {
    NextRuns(h, ws, 32, Hash(0x3CF6EB58, 0xF4DDD7B7, 0xC90FB815, 0xBD5F2D4F, 0xE4C9F7DB), 0x00000000);
    NextRuns(h, ws, 33, Hash(0x730E9170, 0x3CF6EB58, 0xFD3775ED, 0xC90FB815, 0xBD5F2D4F), 0x00007800);
    NextRuns(h, ws, 34, Hash(0x96D9E59E, 0x730E9170, 0x0F3DBAD6, 0xFD3775ED, 0xC90FB815), 0x00000F00);
    NextRuns(h, ws, 35, Hash(0x942AC4D3, 0x96D9E59E, 0x1CC3A45C, 0x0F3DBAD6, 0xFD3775ED), 0x00003300);
    NextRuns(h, ws, 36, Hash(0x76922A14, 0x942AC4D3, 0xA5B67967, 0x1CC3A45C, 0x0F3DBAD6), 0x0000F000);
    NextRuns(h, ws, 37, Hash(0x7DBCF2ED, 0x76922A14, 0xE50AB134, 0xA5B67967, 0x1CC3A45C), 0x00000F00);
    NextRuns(h, ws, 38, Hash(0x796ADEF3, 0x7DBCF2ED, 0x1DA48A85, 0xE50AB134, 0xA5B67967), 0x00000000);
    NextRuns(h, ws, 39, Hash(0xC6FF0CD3, 0x796ADEF3, 0x5F6F3CBB, 0x1DA48A85, 0xE50AB134), 0x0001EF00);
    NextRuns(h, ws, 40, Hash(0x6F698F1A, 0xC6FF0CD3, 0xDE5AB7BC, 0x5F6F3CBB, 0x1DA48A85), 0x00000000);
    NextRuns(h, ws, 41, Hash(0x78716769, 0x6F698F1A, 0xF1BFC334, 0xDE5AB7BC, 0x5F6F3CBB), 0x0000CC00);
    NextRuns(h, ws, 42, Hash(0xFC343A02, 0x78716769, 0x9BDA63C6, 0xF1BFC334, 0xDE5AB7BC), 0x0003C000);
    NextRuns(h, ws, 43, Hash(0xEDFCD85B, 0xFC343A02, 0x5E1C59DA, 0x9BDA63C6, 0xF1BFC334), 0x00004380);
    NextRuns(h, ws, 44, Hash(0x1E934ACF, 0xEDFCD85B, 0xBF0D0E80, 0x5E1C59DA, 0x9BDA63C6), 0x00000000);
    NextRuns(h, ws, 45, Hash(0xFC7BD35F, 0x1E934ACF, 0xFB7F3616, 0xBF0D0E80, 0x5E1C59DA), 0x00078F00);
    NextRuns(h, ws, 46, Hash(0x3BD9203B, 0xFC7BD35F, 0xC7A4D2B3, 0xFB7F3616, 0xBF0D0E80), 0x0000FF00);
    NextRuns(h, ws, 47, Hash(0xC8CDA3DA, 0x3BD9203B, 0xFF1EF4D7, 0xC7A4D2B3, 0xFB7F3616), 0x00032680);
  }

  lemma EndRounds3(h: Hash<Word>, ws: seq<Word>)
    requires At(ws, 48, 0x000F0000) && At(ws, 49, 0x0000F000) && At(ws, 50, 0x00003300) && At(ws, 51, 0x001EFF00)
    requires At(ws, 52, 0x00000000) && At(ws, 53, 0x000CB800) && At(ws, 54, 0x003C0000) && At(ws, 55, 0x00040B00)
    requires At(ws, 56, 0x0000F000) && At(ws, 57, 0x0078FF00) && At(ws, 58, 0x000FF000) && At(ws, 59, 0x00338700)
    requires At(ws, 60, 0x00F00000) && At(ws, 61, 0x000FC300) && At(ws, 62, 0x0000F000) && At(ws, 63, 0x01EFBB00)
    requires Runs(h, ws, 48, Hash(0xA3EF857E, 0xC8CDA3DA, 0xCEF6480E, 0xFF1EF4D7, 0xC7A4D2B3))
    ensures Runs(h, ws, 64, Hash(0xA5937450, 0xD5EF1ED7, 0xC444CBE3, 0xDDD22788, 0x558467C6))
  {
    NextRuns(h, ws, 48, Hash(0xA3EF857E, 0xC8CDA3DA, 0xCEF6480E, 0xFF1EF4D7, 0xC7A4D2B3), 0x000F0000);
    NextRuns(h, ws, 49, Hash(0xA39F2041, 0xA3EF857E, 0xB23368F6, 0xCEF6480E, 0xFF1EF4D7), 0x0000F000);
    NextRuns(h, ws, 50, Hash(0xA516F265, 0xA39F2041, 0xA8FBE15F, 0xB23368F6, 0xCEF6480E), 0x00003300);
    NextRuns(h, ws, 51, Hash(0xA3ABE4F5, 0xA516F265, 0x68E7C810, 0xA8FBE15F, 0xB23368F6), 0x001EFF00);
    NextRuns(h, ws, 52, Hash(0x5FE2A3DB, 0xA3ABE4F5, 0x6945BC99, 0x68E7C810, 0xA8FBE15F), 0x00000000);
    NextRuns(h, ws, 53, Hash(0x9E540637, 0x5FE2A3DB, 0x68EAF93D, 0x6945BC99, 0x68E7C810), 0x000CB800);
    NextRuns(h, ws, 54, Hash(0x2C73BD78, 0x9E540637, 0xD7F8A8F6, 0x68EAF93D, 0x6945BC99), 0x003C0000);
    NextRuns(h, ws, 55, Hash(0x660DD0B1, 0x2C73BD78, 0xE795018D, 0xD7F8A8F6, 0x68EAF93D), 0x00040B00);
    NextRuns(h, ws, 56, Hash(0xA1B68141, 0x660DD0B1, 0x0B1CEF5E, 0xE795018D, 0xD7F8A8F6), 0x0000F000);
    NextRuns(h, ws, 57, Hash(0x05033FA3, 0xA1B68141, 0x5983742C, 0x0B1CEF5E, 0xE795018D), 0x0078FF00);
    NextRuns(h, ws, 58, Hash(0x21289715, 0x05033FA3, 0x686DA050, 0x5983742C, 0x0B1CEF5E), 0x000FF000);
    NextRuns(h, ws, 59, Hash(0x085EB2FE, 0x21289715, 0xC140CFE8, 0x686DA050, 0x5983742C), 0x00338700);
    NextRuns(h, ws, 60, Hash(0x56119F19, 0x085EB2FE, 0x484A25C5, 0xC140CFE8, 0x686DA050), 0x00F00000);
    NextRuns(h, ws, 61, Hash(0x77489E23, 0x56119F19, 0x8217ACBF, 0x484A25C5, 0xC140CFE8), 0x000FC300);
    NextRuns(h, ws, 62, Hash(0x11132F8F, 0x77489E23, 0x558467C6, 0x8217ACBF, 0x484A25C5), 0x0000F000);
    NextRuns(h, ws, 63, Hash(0xD5EF1ED7, 0x11132F8F, 0xDDD22788, 0x558467C6, 0x8217ACBF), 0x01EFBB00);
  }

  lemma EndRounds4(h: Hash<Word>, ws: seq<Word>)
    requires At(ws, 64, 0x00000000) && At(ws, 65, 0x00CC0000) && At(ws, 66, 0x03C0F000) && At(ws, 67, 0x00438000)
    requires At(ws, 68, 0x00000000) && At(ws, 69, 0x078F0000) && At(ws, 70, 0x00FF0000) && At(ws, 71, 0x03269E00)
    requires At(ws, 72, 0x0F000000) && At(ws, 73, 0x00F0F000) && At(ws, 74, 0x00333C00) && At(ws, 75, 0x1EFF8800)
    requires At(ws, 76, 0x00000000) && At(ws, 77, 0x0CB88800) && At(ws, 78, 0x3C00F000) && At(ws, 79, 0x040A4A00)
    requires Runs(h, ws, 64, Hash(0xA5937450, 0xD5EF1ED7, 0xC444CBE3, 0xDDD22788, 0x558467C6))
    ensures Runs(h, ws, 80, Hash(0x57AAD805, 0x4D3B0DAC, 0xD27A4A0D, 0x74C040CD, 0x54782008))
  {
    NextRuns(h, ws, 64, Hash(0xA5937450, 0xD5EF1ED7, 0xC444CBE3, 0xDDD22788, 0x558467C6), 0x00000000);
    NextRuns(h, ws, 65, Hash(0x9ECFA66C, 0xA5937450, 0xF57BC7B5, 0xC444CBE3, 0xDDD22788), 0x00CC0000);
    NextRuns(h, ws, 66, Hash(0x17A22EF7, 0x9ECFA66C, 0x2964DD14, 0xF57BC7B5, 0xC444CBE3), 0x03C0F000);
    NextRuns(h, ws, 67, Hash(0xC97F1968, 0x17A22EF7, 0x27B3E99B, 0x2964DD14, 0xF57BC7B5), 0x00438000);
    NextRuns(h, ws, 68, Hash(0x097A511C, 0xC97F1968, 0xC5E88BBD, 0x27B3E99B, 0x2964DD14), 0x00000000);
    NextRuns(h, ws, 69, Hash(0x4E363DB9, 0x097A511C, 0x325FC65A, 0xC5E88BBD, 0x27B3E99B), 0x078F0000);
    NextRuns(h, ws, 70, Hash(0xBF3A7F95, 0x4E363DB9, 0x025E9447, 0x325FC65A, 0xC5E88BBD), 0x00FF0000);
    NextRuns(h, ws, 71, Hash(0xF6D1AFEE, 0xBF3A7F95, 0x538D8F6E, 0x025E9447, 0x325FC65A), 0x03269E00);
    NextRuns(h, ws, 72, Hash(0xC90888CA, 0xF6D1AFEE, 0x6FCE9FE5, 0x538D8F6E, 0x025E9447), 0x0F000000);
    NextRuns(h, ws, 73, Hash(0xC7652EDB, 0xC90888CA, 0xBDB46BFB, 0x6FCE9FE5, 0x538D8F6E), 0x00F0F000);
    NextRuns(h, ws, 74, Hash(0x26F99990, 0xC7652EDB, 0xB2422232, 0xBDB46BFB, 0x6FCE9FE5), 0x00333C00);
    NextRuns(h, ws, 75, Hash(0xE22B36D1, 0x26F99990, 0xF1D94BB6, 0xB2422232, 0xBDB46BFB), 0x1EFF8800);
    NextRuns(h, ws, 76, Hash(0x51E08021, 0xE22B36D1, 0x09BE6664, 0xF1D94BB6, 0xB2422232), 0x00000000);
    NextRuns(h, ws, 77, Hash(0xD3010335, 0x51E08021, 0x788ACDB4, 0x09BE6664, 0xF1D94BB6), 0x0CB88800);
    NextRuns(h, ws, 78, Hash(0x49E92837, 0xD3010335, 0x54782008, 0x788ACDB4, 0x09BE6664), 0x3C00F000);
    NextRuns(h, ws, 79, Hash(0x4D3B0DAC, 0x49E92837, 0x74C040CD, 0x54782008, 0x788ACDB4), 0x040A4A00);
  }

  lemma AbcChunk0(h: Hash<Word>, ws: seq<Word>)
    requires Scheduled(ws) && Slice(ws, 0, ABC_0)
    requires Runs(h, ws, 0, Hash(0x67452301, 0xEFCDAB89, 0x98BADCFE, 0x10325476, 0xC3D2E1F0))
    ensures Slice(ws, 16, ABC_1) && Runs(h, ws, 16, Hash(0x20BDD62F, 0x196BEE77, 0x644A3DA5, 0x1181ED99, 0x18C623F9))
  {
    SliceIsSixteen(ws, 0, ABC_0);
    AbcRounds0(h, ws);
    AbcWords1();
    NextSlice(ws, 0, ABC_0, ABC_1);
  }

  lemma AbcChunk1(h: Hash<Word>, ws: seq<Word>)
    requires Scheduled(ws) && Slice(ws, 16, ABC_1)
    requires Runs(h, ws, 16, Hash(0x20BDD62F, 0x196BEE77, 0x644A3DA5, 0x1181ED99, 0x18C623F9))
    ensures Slice(ws, 32, ABC_2) && Runs(h, ws, 32, Hash(0x3B845D33, 0x1267B407, 0x717EEBD7, 0xA0DC2D4B, 0xD2AA1365))
  {
    SliceIsSixteen(ws, 16, ABC_1);
    AbcRounds1(h, ws);
    AbcWords2();
    NextSlice(ws, 16, ABC_1, ABC_2);
  }

  lemma AbcChunk2(h: Hash<Word>, ws: seq<Word>)
    requires Scheduled(ws) && Slice(ws, 32, ABC_2)
    requires Runs(h, ws, 32, Hash(0x3B845D33, 0x1267B407, 0x717EEBD7, 0xA0DC2D4B, 0xD2AA1365))
    ensures Slice(ws, 48, ABC_3) && Runs(h, ws, 48, Hash(0xBEAD02CA, 0xA01B846C, 0x8714787C, 0x503CA382, 0xFB86C6AB))
  {
    SliceIsSixteen(ws, 32, ABC_2);
    AbcRounds2(h, ws);
    AbcWords3();
    NextSlice(ws, 32, ABC_2, ABC_3);
  }

  lemma AbcChunk3(h: Hash<Word>, ws: seq<Word>)
    requires Scheduled(ws) && Slice(ws, 48, ABC_3)
    requires Runs(h, ws, 48, Hash(0xBEAD02CA, 0xA01B846C, 0x8714787C, 0x503CA382, 0xFB86C6AB))
    ensures Slice(ws, 64, ABC_4) && Runs(h, ws, 64, Hash(0x6B61C9E1, 0xB66C020B, 0x9523272C, 0xF5D5B051, 0x8FD4B796))
  {
    SliceIsSixteen(ws, 48, ABC_3);
    AbcRounds3(h, ws);
    AbcWords4();
    NextSlice(ws, 48, ABC_3, ABC_4);
  }

  lemma AbcChunk4(h: Hash<Word>, ws: seq<Word>)
    requires Scheduled(ws) && Slice(ws, 64, ABC_4)
    requires Runs(h, ws, 64, Hash(0x6B61C9E1, 0xB66C020B, 0x9523272C, 0xF5D5B051, 0x8FD4B796))
    ensures Runs(h, ws, 80, Hash(0x42541B35, 0x5738D5E1, 0x21834873, 0x681E6DF6, 0xD8FDF6AD))
  {
    SliceIsSixteen(ws, 64, ABC_4);
    AbcRounds4(h, ws);
  }

  lemma CompressAbc(b: Block)
    requires forall i :: 0 <= i < 16 ==> WordBytesAt(b, ABC_0, i)
    ensures RFC_3174.Compress(RFC_3174.initial, b) == Hash(0xA9993E36, 0x4706816A, 0xBA3E2571, 0x7850C26C, 0x9CD0D89D)
  {
    var h, ws := RFC_3174.initial, RFC_3174.Words(b);
    WordsAreScheduled(b);
    FirstSlice(b, ABC_0);
    AbcChunk0(h, ws);
    AbcChunk1(h, ws);
    AbcChunk2(h, ws);
    AbcChunk3(h, ws);
    AbcChunk4(h, ws);
  }

  lemma KeyChunk0(h: Hash<Word>, ws: seq<Word>)
    requires Scheduled(ws) && Slice(ws, 0, KEY_0)
    requires Runs(h, ws, 0, Hash(0x67452301, 0xEFCDAB89, 0x98BADCFE, 0x10325476, 0xC3D2E1F0))
    ensures Slice(ws, 16, KEY_1) && Runs(h, ws, 16, Hash(0xA004C468, 0xE922CC9D, 0xAB86825B, 0xD86F6CAF, 0x8D33AE61))
  {
    SliceIsSixteen(ws, 0, KEY_0);
    KeyRounds0(h, ws);
    KeyWords1();
    NextSlice(ws, 0, KEY_0, KEY_1);
  }

  lemma KeyChunk1(h: Hash<Word>, ws: seq<Word>)
    requires Scheduled(ws) && Slice(ws, 16, KEY_1)
    requires Runs(h, ws, 16, Hash(0xA004C468, 0xE922CC9D, 0xAB86825B, 0xD86F6CAF, 0x8D33AE61))
    ensures Slice(ws, 32, KEY_2) && Runs(h, ws, 32, Hash(0xA6680A1F, 0xB7DABC8B, 0x4206D8F9, 0xC6AEC70D, 0x95C7DF60))
  {
    SliceIsSixteen(ws, 16, KEY_1);
    KeyRounds1(h, ws);
    KeyWords2();
    NextSlice(ws, 16, KEY_1, KEY_2);
  }

  lemma KeyChunk2(h: Hash<Word>, ws: seq<Word>)
    requires Scheduled(ws) && Slice(ws, 32, KEY_2)
    requires Runs(h, ws, 32, Hash(0xA6680A1F, 0xB7DABC8B, 0x4206D8F9, 0xC6AEC70D, 0x95C7DF60))
    ensures Slice(ws, 48, KEY_3) && Runs(h, ws, 48, Hash(0xABE1748A, 0xDEE4B7A8, 0x5CBFCCD3, 0x97D7CD14, 0xDB71A8F5))
  {
    SliceIsSixteen(ws, 32, KEY_2);
    KeyRounds2(h, ws);
    KeyWords3();
    NextSlice(ws, 32, KEY_2, KEY_3);
  }

  lemma KeyChunk3(h: Hash<Word>, ws: seq<Word>)
    requires Scheduled(ws) && Slice(ws, 48, KEY_3)
    requires Runs(h, ws, 48, Hash(0xABE1748A, 0xDEE4B7A8, 0x5CBFCCD3, 0x97D7CD14, 0xDB71A8F5))
    ensures Slice(ws, 64, KEY_4) && Runs(h, ws, 64, Hash(0x685E2FF6, 0x840054D3, 0xE43C0363, 0x3350802E, 0x921CB616))
  {
    SliceIsSixteen(ws, 48, KEY_3);
    KeyRounds3(h, ws);
    KeyWords4();
    NextSlice(ws, 48, KEY_3, KEY_4);
  }

  lemma KeyChunk4(h: Hash<Word>, ws: seq<Word>)
    requires Scheduled(ws) && Slice(ws, 64, KEY_4)
    requires Runs(h, ws, 64, Hash(0x685E2FF6, 0x840054D3, 0xE43C0363, 0x3350802E, 0x921CB616))
    ensures Runs(h, ws, 80, Hash(0xF48A5426, 0x835995E1, 0x25C11EFB, 0x4A45C402, 0x9A73C2F2))
  {
    SliceIsSixteen(ws, 64, KEY_4);
    KeyRounds4(h, ws);
  }

  lemma CompressKey(b: Block)
    requires forall i :: 0 <= i < 16 ==> WordBytesAt(b, KEY_0, i)
    ensures RFC_3174.Compress(RFC_3174.initial, b) == Hash(0x5BCF7727, 0x7327416A, 0xBE7BFBF9, 0x5A781878, 0x5E46A4E2)
  {
    var h, ws := RFC_3174.initial, RFC_3174.Words(b);
    WordsAreScheduled(b);
    FirstSlice(b, KEY_0);
    KeyChunk0(h, ws);
    KeyChunk1(h, ws);
    KeyChunk2(h, ws);
    KeyChunk3(h, ws);
    KeyChunk4(h, ws);
  }

  lemma EndChunk0(h: Hash<Word>, ws: seq<Word>)
    requires Scheduled(ws) && Slice(ws, 0, END_0)
    requires Runs(h, ws, 0, Hash(0x5BCF7727, 0x7327416A, 0xBE7BFBF9, 0x5A781878, 0x5E46A4E2))
    ensures Slice(ws, 16, END_1) && Runs(h, ws, 16, Hash(0x986DF268, 0x990B7BE7, 0xAB50FCE7, 0x195DB4B7, 0x4941806B))
  {
    SliceIsSixteen(ws, 0, END_0);
    EndRounds0(h, ws);
    EndWords1();
    NextSlice(ws, 0, END_0, END_1);
  }

  lemma EndChunk1(h: Hash<Word>, ws: seq<Word>)
    requires Scheduled(ws) && Slice(ws, 16, END_1)
    requires Runs(h, ws, 16, Hash(0x986DF268, 0x990B7BE7, 0xAB50FCE7, 0x195DB4B7, 0x4941806B))
    ensures Slice(ws, 32, END_2) && Runs(h, ws, 32, Hash(0x3CF6EB58, 0xF4DDD7B7, 0xC90FB815, 0xBD5F2D4F, 0xE4C9F7DB))
  {
    SliceIsSixteen(ws, 16, END_1);
    EndRounds1(h, ws);
    EndWords2();
    NextSlice(ws, 16, END_1, END_2);
  }

  lemma EndChunk2(h: Hash<Word>, ws: seq<Word>)
    requires Scheduled(ws) && Slice(ws, 32, END_2)
    requires Runs(h, ws, 32, Hash(0x3CF6EB58, 0xF4DDD7B7, 0xC90FB815, 0xBD5F2D4F, 0xE4C9F7DB))
    ensures Slice(ws, 48, END_3) && Runs(h, ws, 48, Hash(0xA3EF857E, 0xC8CDA3DA, 0xCEF6480E, 0xFF1EF4D7, 0xC7A4D2B3))
  {
    SliceIsSixteen(ws, 32, END_2);
    EndRounds2(h, ws);
    EndWords3();
    NextSlice(ws, 32, END_2, END_3);
  }

  lemma EndChunk3(h: Hash<Word>, ws: seq<Word>)
    requires Scheduled(ws) && Slice(ws, 48, END_3)
    requires Runs(h, ws, 48, Hash(0xA3EF857E, 0xC8CDA3DA, 0xCEF6480E, 0xFF1EF4D7, 0xC7A4D2B3))
    ensures Slice(ws, 64, END_4) && Runs(h, ws, 64, Hash(0xA5937450, 0xD5EF1ED7, 0xC444CBE3, 0xDDD22788, 0x558467C6))
  {
    SliceIsSixteen(ws, 48, END_3);
    EndRounds3(h, ws);
    EndWords4();
    NextSlice(ws, 48, END_3, END_4);
  }

  lemma EndChunk4(h: Hash<Word>, ws: seq<Word>)
    requires Scheduled(ws) && Slice(ws, 64, END_4)
    requires Runs(h, ws, 64, Hash(0xA5937450, 0xD5EF1ED7, 0xC444CBE3, 0xDDD22788, 0x558467C6))
    ensures Runs(h, ws, 80, Hash(0x57AAD805, 0x4D3B0DAC, 0xD27A4A0D, 0x74C040CD, 0x54782008))
  {
    SliceIsSixteen(ws, 64, END_4);
    EndRounds4(h, ws);
  }

  lemma CompressEnd(b: Block)
    requires forall i :: 0 <= i < 16 ==> WordBytesAt(b, END_0, i)
    ensures RFC_3174.Compress(AFTER_KEY, b) == Hash(0xB37A4F2C, 0xC0624F16, 0x90F64606, 0xCF385945, 0xB2BEC4EA)
  {
    var h, ws := AFTER_KEY, RFC_3174.Words(b);
    WordsAreScheduled(b);
    FirstSlice(b, END_0);
    EndChunk0(h, ws);
    EndChunk1(h, ws);
    EndChunk2(h, ws);
    EndChunk3(h, ws);
    EndChunk4(h, ws);
  }

  /** "abc" */
  const ABC: seq<Octet> := [97, 98, 99]

  lemma ZeroWord()
    ensures RFC_3174.WordBytes(0) == [0, 0, 0, 0]
  {
  }

  lemma LengthOf24()
    ensures LengthBytes(24) == [0, 0, 0, 0, 0, 0, 0, 24]
  {
    assert ByteOf(24, 0) == 24 && ByteOf(24, 1) == 0 && ByteOf(24, 2) == 0 && ByteOf(24, 3) == 0;
    assert ByteOf(24, 4) == 0 && ByteOf(24, 5) == 0 && ByteOf(24, 6) == 0 && ByteOf(24, 7) == 0;
  }

  lemma AbcBlock(b: Block)
    requires b == LastBlock(ABC, 3)
    ensures forall i :: 0 <= i < 16 ==> WordBytesAt(b, ABC_0, i)
  {
    LengthOf24();
    ZeroWord();
    assert b[56..] == LengthBytes(24) && forall j :: 4 <= j < 56 ==> b[j] == 0;
    assert ABC_0[1..14] == [0, 0, 0, 0, 0, 0, 0, 0, 0, 0, 0, 0, 0];
    forall i | 0 <= i < 16 ensures WordBytesAt(b, ABC_0, i) {
      if i == 0 {
        assert RFC_3174.WordBytes(0x61626380) == [97, 98, 99, 0x80];
        assert b[0..4] == [97, 98, 99, 0x80];
      } else if i < 14 {
        assert ABC_0[i] == ABC_0[1..14][i - 1] == 0;
        assert b[4 * i..4 * i + 4] == [0, 0, 0, 0];
      } else if i == 14 {
        assert b[56..60] == [0, 0, 0, 0] && ABC_0[14] == 0;
      } else {
        assert RFC_3174.WordBytes(24) == [0, 0, 0, 24];
        assert b[60..64] == [0, 0, 0, 24];
      }
    }
  }

  lemma AbcAbsorbed()
    ensures RFC_3174.Absorb(Blocks(Pad(ABC))) == Hash(0xA9993E36, 0x4706816A, 0xBA3E2571, 0x7850C26C, 0x9CD0D89D)
  {
    OneBlock([], ABC);
    var b := LastBlock(ABC, 3);
    assert Joined([]) + ABC == ABC && [] + [b] == [b];
    AbcBlock(b);
    CompressAbc(b);
    RFC_3174.AbsorbMore([], b);
  }

  lemma AbcFront()
    ensures RFC_3174.WordBytes(0xA9993E36) == [0xA9, 0x99, 0x3E, 0x36]
    ensures RFC_3174.WordBytes(0x4706816A) == [0x47, 0x06, 0x81, 0x6A]
    ensures RFC_3174.WordBytes(0xBA3E2571) == [0xBA, 0x3E, 0x25, 0x71]
  {
  }

  lemma AbcBack()
    ensures RFC_3174.WordBytes(0x7850C26C) == [0x78, 0x50, 0xC2, 0x6C]
    ensures RFC_3174.WordBytes(0x9CD0D89D) == [0x9C, 0xD0, 0xD8, 0x9D]
  {
  }

  lemma AbcBytes()
    ensures RFC_3174.Digest(Hash(0xA9993E36, 0x4706816A, 0xBA3E2571, 0x7850C26C, 0x9CD0D89D)) == [
      0xA9, 0x99, 0x3E, 0x36, 0x47, 0x06, 0x81, 0x6A, 0xBA, 0x3E,
      0x25, 0x71, 0x78, 0x50, 0xC2, 0x6C, 0x9C, 0xD0, 0xD8, 0x9D]
  {
    AbcFront();
    AbcBack();
  }

  /** The first example of the standard (section 7.3 of RFC 3174). */
  lemma AbcDigest()
    ensures RFC_3174.Sha1([97, 98, 99]) == [
      0xA9, 0x99, 0x3E, 0x36, 0x47, 0x06, 0x81, 0x6A, 0xBA, 0x3E,
      0x25, 0x71, 0x78, 0x50, 0xC2, 0x6C, 0x9C, 0xD0, 0xD8, 0x9D]
  {
    AbcAbsorbed();
    AbcBytes();
  }

  ghost predicate OctetsAt(m: seq<Octet>, i: nat, a: Octet, b: Octet, c: Octet, d: Octet) {
    i + 4 <= |m| && m[i] == a && m[i + 1] == b && m[i + 2] == c && m[i + 3] == d
  }

  ghost predicate WordOf(m: seq<Octet>, i: nat, w: Word) {
    4 * i + 4 <= |m| && m[4 * i..4 * i + 4] == RFC_3174.WordBytes(w)
  }

  /** dGhlIHNhbXBsZSBub25jZQ==258EAFA5-E914-47DA-95CA-C5AB0DC85B11 */
  ghost predicate IsKey(m: seq<Octet>) {
    && |m| == 60
    && OctetsAt(m, 0, 100, 71, 104, 108) && OctetsAt(m, 4, 73, 72, 78, 104)
    && OctetsAt(m, 8, 98, 88, 66, 115) && OctetsAt(m, 12, 90, 83, 66, 117)
    && OctetsAt(m, 16, 98, 50, 53, 106) && OctetsAt(m, 20, 90, 81, 61, 61)
    && OctetsAt(m, 24, 50, 53, 56, 69) && OctetsAt(m, 28, 65, 70, 65, 53)
    && OctetsAt(m, 32, 45, 69, 57, 49) && OctetsAt(m, 36, 52, 45, 52, 55)
    && OctetsAt(m, 40, 68, 65, 45, 57) && OctetsAt(m, 44, 53, 67, 65, 45)
    && OctetsAt(m, 48, 67, 53, 65, 66) && OctetsAt(m, 52, 48, 68, 67, 56)
    && OctetsAt(m, 56, 53, 66, 49, 49)
  }

  lemma KeyBytes0(m: seq<Octet>)
    requires IsKey(m)
    ensures WordOf(m, 0, 0x6447686C)
    ensures WordOf(m, 1, 0x49484E68)
    ensures WordOf(m, 2, 0x62584273)
    ensures WordOf(m, 3, 0x5A534275)
  {
    assert RFC_3174.WordBytes(0x6447686C) == [100, 71, 104, 108];
    assert RFC_3174.WordBytes(0x49484E68) == [73, 72, 78, 104];
    assert RFC_3174.WordBytes(0x62584273) == [98, 88, 66, 115];
    assert RFC_3174.WordBytes(0x5A534275) == [90, 83, 66, 117];
  }

  lemma KeyBytes1(m: seq<Octet>)
    requires IsKey(m)
    ensures WordOf(m, 4, 0x6232356A)
    ensures WordOf(m, 5, 0x5A513D3D)
    ensures WordOf(m, 6, 0x32353845)
    ensures WordOf(m, 7, 0x41464135)
  {
    assert RFC_3174.WordBytes(0x6232356A) == [98, 50, 53, 106];
    assert RFC_3174.WordBytes(0x5A513D3D) == [90, 81, 61, 61];
    assert RFC_3174.WordBytes(0x32353845) == [50, 53, 56, 69];
    assert RFC_3174.WordBytes(0x41464135) == [65, 70, 65, 53];
  }

  lemma KeyBytes2(m: seq<Octet>)
    requires IsKey(m)
    ensures WordOf(m, 8, 0x2D453931)
    ensures WordOf(m, 9, 0x342D3437)
    ensures WordOf(m, 10, 0x44412D39)
    ensures WordOf(m, 11, 0x3543412D)
  {
    assert RFC_3174.WordBytes(0x2D453931) == [45, 69, 57, 49];
    assert RFC_3174.WordBytes(0x342D3437) == [52, 45, 52, 55];
    assert RFC_3174.WordBytes(0x44412D39) == [68, 65, 45, 57];
    assert RFC_3174.WordBytes(0x3543412D) == [53, 67, 65, 45];
  }

  lemma KeyBytes3(m: seq<Octet>)
    requires IsKey(m)
    ensures WordOf(m, 12, 0x43354142)
    ensures WordOf(m, 13, 0x30444338)
    ensures WordOf(m, 14, 0x35423131)
  {
    assert RFC_3174.WordBytes(0x43354142) == [67, 53, 65, 66];
    assert RFC_3174.WordBytes(0x30444338) == [48, 68, 67, 56];
    assert RFC_3174.WordBytes(0x35423131) == [53, 66, 49, 49];
  }

  ghost predicate EarlyWords(m: seq<Octet>, w: seq<Word>) {
    && |w| == 16
    && WordOf(m, 0, w[0]) && WordOf(m, 1, w[1]) && WordOf(m, 2, w[2]) && WordOf(m, 3, w[3])
    && WordOf(m, 4, w[4]) && WordOf(m, 5, w[5]) && WordOf(m, 6, w[6]) && WordOf(m, 7, w[7])
  }

  ghost predicate LateWords(m: seq<Octet>, w: seq<Word>) {
    && |w| == 16
    && WordOf(m, 8, w[8]) && WordOf(m, 9, w[9]) && WordOf(m, 10, w[10]) && WordOf(m, 11, w[11])
    && WordOf(m, 12, w[12]) && WordOf(m, 13, w[13]) && WordOf(m, 14, w[14])
  }

  lemma EarlyWordAt(m: seq<Octet>, w: seq<Word>, i: nat)
    requires EarlyWords(m, w) && i < 8
    ensures WordOf(m, i, w[i])
  {
  }

  lemma LateWordAt(m: seq<Octet>, w: seq<Word>, i: nat)
    requires LateWords(m, w) && 8 <= i < 15
    ensures WordOf(m, i, w[i])
  {
  }

  lemma KeyWordsOf(m: seq<Octet>)
    requires IsKey(m)
    ensures EarlyWords(m, KEY_0) && LateWords(m, KEY_0)
  {
    KeyBytes0(m);
    KeyBytes1(m);
    KeyBytes2(m);
    KeyBytes3(m);
  }

  lemma MarkWord()
    ensures RFC_3174.WordBytes(0x80000000) == [0x80, 0, 0, 0] && KEY_0[15] == 0x80000000
  {
  }

  lemma KeyBlock(m: seq<Octet>)
    requires |m| == 60 && EarlyWords(m, KEY_0) && LateWords(m, KEY_0)
    ensures forall i :: 0 <= i < 16 ==> WordBytesAt(MarkedBlock(m), KEY_0, i)
  {
    var b := MarkedBlock(m);
    MarkWord();
    forall i | 0 <= i < 16 ensures WordBytesAt(b, KEY_0, i) {
      if i < 15 {
        if i < 8 {
          EarlyWordAt(m, KEY_0, i);
        } else {
          LateWordAt(m, KEY_0, i);
        }
        assert b[4 * i..4 * i + 4] == m[4 * i..4 * i + 4];
      } else {
        assert b[60..64] == [0x80, 0, 0, 0];
      }
    }
  }

  lemma LengthOf480()
    ensures LengthBytes(480) == [0, 0, 0, 0, 0, 0, 1, 224]
  {
    assert ByteOf(480, 0) == 224 && ByteOf(480, 1) == 1 && ByteOf(480, 2) == 0 && ByteOf(480, 3) == 0;
    assert ByteOf(480, 4) == 0 && ByteOf(480, 5) == 0 && ByteOf(480, 6) == 0 && ByteOf(480, 7) == 0;
  }

  lemma EndBlock(b: Block)
    requires b == Zeros(56) + LengthBytes(480)
    ensures forall i :: 0 <= i < 16 ==> WordBytesAt(b, END_0, i)
  {
    LengthOf480();
    ZeroWord();
    assert b[56..] == LengthBytes(480) && forall j :: 0 <= j < 56 ==> b[j] == 0;
    assert END_0[..14] == [0, 0, 0, 0, 0, 0, 0, 0, 0, 0, 0, 0, 0, 0];
    forall i | 0 <= i < 16 ensures WordBytesAt(b, END_0, i) {
      if i < 14 {
        assert END_0[i] == END_0[..14][i] == 0;
        assert b[4 * i..4 * i + 4] == [0, 0, 0, 0];
      } else if i == 14 {
        assert b[56..60] == [0, 0, 0, 0] && END_0[14] == 0;
      } else {
        assert RFC_3174.WordBytes(480) == [0, 0, 1, 224];
        assert b[60..64] == [0, 0, 1, 224];
      }
    }
  }

  lemma KeyBlocks(m: seq<Octet>)
    requires |m| == 60
    ensures Blocks(Pad(m)) == [MarkedBlock(m), Zeros(56) + LengthBytes(480)]
  {
    TwoBlocks([], m);
    assert Joined([]) + m == m;
  }

  lemma KeyAbsorbed(m: seq<Octet>)
    requires IsKey(m)
    ensures RFC_3174.Absorb(Blocks(Pad(m))) == Hash(0xB37A4F2C, 0xC0624F16, 0x90F64606, 0xCF385945, 0xB2BEC4EA)
  {
    var b, c := MarkedBlock(m), Zeros(56) + LengthBytes(480);
    KeyBlocks(m);
    KeyWordsOf(m);
    KeyBlock(m);
    CompressKey(b);
    EndBlock(c);
    CompressEnd(c);
    assert [] + [b] == [b] && [b] + [c] == [b, c];
    RFC_3174.AbsorbMore([], b);
    RFC_3174.AbsorbMore([b], c);
  }

  lemma KeyDigestFront()
    ensures RFC_3174.WordBytes(0xB37A4F2C) == [0xB3, 0x7A, 0x4F, 0x2C]
    ensures RFC_3174.WordBytes(0xC0624F16) == [0xC0, 0x62, 0x4F, 0x16]
    ensures RFC_3174.WordBytes(0x90F64606) == [0x90, 0xF6, 0x46, 0x06]
  {
  }

  lemma KeyDigestBack()
    ensures RFC_3174.WordBytes(0xCF385945) == [0xCF, 0x38, 0x59, 0x45]
    ensures RFC_3174.WordBytes(0xB2BEC4EA) == [0xB2, 0xBE, 0xC4, 0xEA]
  {
  }

  lemma KeyDigestBytes()
    ensures RFC_3174.Digest(Hash(0xB37A4F2C, 0xC0624F16, 0x90F64606, 0xCF385945, 0xB2BEC4EA)) == [
      0xB3, 0x7A, 0x4F, 0x2C, 0xC0, 0x62, 0x4F, 0x16, 0x90, 0xF6,
      0x46, 0x06, 0xCF, 0x38, 0x59, 0x45, 0xB2, 0xBE, 0xC4, 0xEA]
  {
    KeyDigestFront();
    KeyDigestBack();
  }

  /** The digest in the example of section 1.3 of RFC 6455. */
  lemma KeyDigest(m: seq<Octet>)
    requires IsKey(m)
    ensures RFC_3174.Sha1(m) == [
      0xB3, 0x7A, 0x4F, 0x2C, 0xC0, 0x62, 0x4F, 0x16, 0x90, 0xF6,
      0x46, 0x06, 0xCF, 0x38, 0x59, 0x45, 0xB2, 0xBE, 0xC4, 0xEA]
  {
    KeyAbsorbed(m);
    KeyDigestBytes();
  }
}

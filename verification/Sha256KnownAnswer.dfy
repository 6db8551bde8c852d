/** The published example of one block: the digest of the message "abc", computed round by round. */
module Sha256KnownAnswer {
  import opened Words
  import opened Sha256Spec
  import opened Sha256Message
  import opened Sha256Bits
  import opened ShareHash

  /** The block of the padded message "abc". */
  const ABC: Block := [0x61626380, 0, 0, 0, 0, 0, 0, 0, 0, 0, 0, 0, 0, 0, 0, 24]

  ghost predicate Has(w: seq<Word>, t: nat, x: bv32) {
    t < |w| && w[t] == FromBits(x)
  }

  /** One step of the schedule, computed. */
  lemma Grow(w: seq<Word>, t: nat, m2: bv32, m7: bv32, m15: bv32, m16: bv32, x: bv32)
    requires Recurrent(w) && 16 <= t < |w| && x == Next(m2, m7, m15, m16)
    requires Has(w, t - 2, m2) && Has(w, t - 7, m7) && Has(w, t - 15, m15) && Has(w, t - 16, m16)
    ensures Has(w, t, x)
  {
    hide NextW, FromBits, Next;
    assert RecurrentAt(w, t);
    NextIsNextW(m2, m7, m15, m16);
  }

  /** One round, computed. */
  lemma Advance(w: seq<Word>, i: nat, v: Vars, k: bv32, x: bv32) returns (v': Vars)
    requires Has(w, i, x) && Rounds(IV, w, i) == Lift(v) && K(i) == FromBits(k)
    ensures v' == Step(v, k, x) && Rounds(IV, w, i + 1) == Lift(v')
  {
    hide Round, Rounds, FromBits, Step, K, Lift;
    RoundsUnfold(IV, w, i);
    StepIsRound(v, k, x);
    v' := Step(v, k, x);
  }

  ghost predicate IsSchedule(w: seq<Word>) {
    |w| == 64 && Recurrent(w) && w[..16] == ABC
  }

  lemma Words0(w: seq<Word>)
    requires IsSchedule(w)
    ensures Has(w, 0, 0x61626380) && Has(w, 1, 0x00000000) && Has(w, 2, 0x00000000) && Has(w, 3, 0x00000000)
    ensures Has(w, 4, 0x00000000) && Has(w, 5, 0x00000000) && Has(w, 6, 0x00000000) && Has(w, 7, 0x00000000)
    ensures Has(w, 8, 0x00000000) && Has(w, 9, 0x00000000) && Has(w, 10, 0x00000000) && Has(w, 11, 0x00000000)
    ensures Has(w, 12, 0x00000000) && Has(w, 13, 0x00000000) && Has(w, 14, 0x00000000) && Has(w, 15, 0x00000018)
  {
    forall i | 0 <= i < 16
      ensures w[i] == ABC[i]
    {
      assert w[i] == w[..16][i];
    }
  }

  lemma Words16(w: seq<Word>)
    requires IsSchedule(w)
    ensures Has(w, 16, 0x61626380) && Has(w, 17, 0x000f0000) && Has(w, 18, 0x7da86405) && Has(w, 19, 0x600003c6)
    ensures Has(w, 20, 0x3e9d7b78) && Has(w, 21, 0x0183fc00) && Has(w, 22, 0x12dcbfdb) && Has(w, 23, 0xe2e2c38e)
    ensures Has(w, 24, 0xc8215c1a) && Has(w, 25, 0xb73679a2) && Has(w, 26, 0xe5bc3909) && Has(w, 27, 0x32663c5b)
    ensures Has(w, 28, 0x9d209d67) && Has(w, 29, 0xec8726cb) && Has(w, 30, 0x702138a4) && Has(w, 31, 0xd3b7973b)
  {
    hide FromBits, Has, Recurrent;
    Words0(w);
    Grow(w, 16, 0x00000000, 0x00000000, 0x00000000, 0x61626380, 0x61626380);
    Grow(w, 17, 0x00000018, 0x00000000, 0x00000000, 0x00000000, 0x000f0000);
    Grow(w, 18, 0x61626380, 0x00000000, 0x00000000, 0x00000000, 0x7da86405);
    Grow(w, 19, 0x000f0000, 0x00000000, 0x00000000, 0x00000000, 0x600003c6);
    Grow(w, 20, 0x7da86405, 0x00000000, 0x00000000, 0x00000000, 0x3e9d7b78);
    Grow(w, 21, 0x600003c6, 0x00000000, 0x00000000, 0x00000000, 0x0183fc00);
    Grow(w, 22, 0x3e9d7b78, 0x00000018, 0x00000000, 0x00000000, 0x12dcbfdb);
    Grow(w, 23, 0x0183fc00, 0x61626380, 0x00000000, 0x00000000, 0xe2e2c38e);
    Grow(w, 24, 0x12dcbfdb, 0x000f0000, 0x00000000, 0x00000000, 0xc8215c1a);
    Grow(w, 25, 0xe2e2c38e, 0x7da86405, 0x00000000, 0x00000000, 0xb73679a2);
    Grow(w, 26, 0xc8215c1a, 0x600003c6, 0x00000000, 0x00000000, 0xe5bc3909);
    Grow(w, 27, 0xb73679a2, 0x3e9d7b78, 0x00000000, 0x00000000, 0x32663c5b);
    Grow(w, 28, 0xe5bc3909, 0x0183fc00, 0x00000000, 0x00000000, 0x9d209d67);
    Grow(w, 29, 0x32663c5b, 0x12dcbfdb, 0x00000000, 0x00000000, 0xec8726cb);
    Grow(w, 30, 0x9d209d67, 0xe2e2c38e, 0x00000018, 0x00000000, 0x702138a4);
    Grow(w, 31, 0xec8726cb, 0xc8215c1a, 0x61626380, 0x00000018, 0xd3b7973b);
  }

  lemma Words32(w: seq<Word>)
    requires IsSchedule(w)
    ensures Has(w, 32, 0x93f5997f) && Has(w, 33, 0x3b68ba73) && Has(w, 34, 0xaff4ffc1) && Has(w, 35, 0xf10a5c62)
    ensures Has(w, 36, 0x0a8b3996) && Has(w, 37, 0x72af830a) && Has(w, 38, 0x9409e33e) && Has(w, 39, 0x24641522)
    ensures Has(w, 40, 0x9f47bf94) && Has(w, 41, 0xf0a64f5a) && Has(w, 42, 0x3e246a79) && Has(w, 43, 0x27333ba3)
    ensures Has(w, 44, 0x0c4763f2) && Has(w, 45, 0x840abf27) && Has(w, 46, 0x7a290d5d) && Has(w, 47, 0x065c43da)
  {
    hide FromBits, Has, Recurrent;
    Words16(w);
    Grow(w, 32, 0x702138a4, 0xb73679a2, 0x000f0000, 0x61626380, 0x93f5997f);
    Grow(w, 33, 0xd3b7973b, 0xe5bc3909, 0x7da86405, 0x000f0000, 0x3b68ba73);
    Grow(w, 34, 0x93f5997f, 0x32663c5b, 0x600003c6, 0x7da86405, 0xaff4ffc1);
    Grow(w, 35, 0x3b68ba73, 0x9d209d67, 0x3e9d7b78, 0x600003c6, 0xf10a5c62);
    Grow(w, 36, 0xaff4ffc1, 0xec8726cb, 0x0183fc00, 0x3e9d7b78, 0x0a8b3996);
    Grow(w, 37, 0xf10a5c62, 0x702138a4, 0x12dcbfdb, 0x0183fc00, 0x72af830a);
    Grow(w, 38, 0x0a8b3996, 0xd3b7973b, 0xe2e2c38e, 0x12dcbfdb, 0x9409e33e);
    Grow(w, 39, 0x72af830a, 0x93f5997f, 0xc8215c1a, 0xe2e2c38e, 0x24641522);
    Grow(w, 40, 0x9409e33e, 0x3b68ba73, 0xb73679a2, 0xc8215c1a, 0x9f47bf94);
    Grow(w, 41, 0x24641522, 0xaff4ffc1, 0xe5bc3909, 0xb73679a2, 0xf0a64f5a);
    Grow(w, 42, 0x9f47bf94, 0xf10a5c62, 0x32663c5b, 0xe5bc3909, 0x3e246a79);
    Grow(w, 43, 0xf0a64f5a, 0x0a8b3996, 0x9d209d67, 0x32663c5b, 0x27333ba3);
    Grow(w, 44, 0x3e246a79, 0x72af830a, 0xec8726cb, 0x9d209d67, 0x0c4763f2);
    Grow(w, 45, 0x27333ba3, 0x9409e33e, 0x702138a4, 0xec8726cb, 0x840abf27);
    Grow(w, 46, 0x0c4763f2, 0x24641522, 0xd3b7973b, 0x702138a4, 0x7a290d5d);
    Grow(w, 47, 0x840abf27, 0x9f47bf94, 0x93f5997f, 0xd3b7973b, 0x065c43da);
  }

  lemma Words48(w: seq<Word>)
    requires IsSchedule(w)
    ensures Has(w, 48, 0xfb3e89cb) && Has(w, 49, 0xcc7617db) && Has(w, 50, 0xb9e66c34) && Has(w, 51, 0xa9993667)
    ensures Has(w, 52, 0x84badedd) && Has(w, 53, 0xc21462bc) && Has(w, 54, 0x1487472c) && Has(w, 55, 0xb20f7a99)
    ensures Has(w, 56, 0xef57b9cd) && Has(w, 57, 0xebe6b238) && Has(w, 58, 0x9fe3095e) && Has(w, 59, 0x78bc8d4b)
    ensures Has(w, 60, 0xa43fcf15) && Has(w, 61, 0x668b2ff8) && Has(w, 62, 0xeeaba2cc) && Has(w, 63, 0x12b1edeb)
  {
    hide FromBits, Has, Recurrent;
    Words32(w);
    Grow(w, 48, 0x7a290d5d, 0xf0a64f5a, 0x3b68ba73, 0x93f5997f, 0xfb3e89cb);
    Grow(w, 49, 0x065c43da, 0x3e246a79, 0xaff4ffc1, 0x3b68ba73, 0xcc7617db);
    Grow(w, 50, 0xfb3e89cb, 0x27333ba3, 0xf10a5c62, 0xaff4ffc1, 0xb9e66c34);
    Grow(w, 51, 0xcc7617db, 0x0c4763f2, 0x0a8b3996, 0xf10a5c62, 0xa9993667);
    Grow(w, 52, 0xb9e66c34, 0x840abf27, 0x72af830a, 0x0a8b3996, 0x84badedd);
    Grow(w, 53, 0xa9993667, 0x7a290d5d, 0x9409e33e, 0x72af830a, 0xc21462bc);
    Grow(w, 54, 0x84badedd, 0x065c43da, 0x24641522, 0x9409e33e, 0x1487472c);
    Grow(w, 55, 0xc21462bc, 0xfb3e89cb, 0x9f47bf94, 0x24641522, 0xb20f7a99);
    Grow(w, 56, 0x1487472c, 0xcc7617db, 0xf0a64f5a, 0x9f47bf94, 0xef57b9cd);
    Grow(w, 57, 0xb20f7a99, 0xb9e66c34, 0x3e246a79, 0xf0a64f5a, 0xebe6b238);
    Grow(w, 58, 0xef57b9cd, 0xa9993667, 0x27333ba3, 0x3e246a79, 0x9fe3095e);
    Grow(w, 59, 0xebe6b238, 0x84badedd, 0x0c4763f2, 0x27333ba3, 0x78bc8d4b);
    Grow(w, 60, 0x9fe3095e, 0xc21462bc, 0x840abf27, 0x0c4763f2, 0xa43fcf15);
    Grow(w, 61, 0x78bc8d4b, 0x1487472c, 0x7a290d5d, 0x840abf27, 0x668b2ff8);
    Grow(w, 62, 0xa43fcf15, 0xb20f7a99, 0x065c43da, 0x7a290d5d, 0xeeaba2cc);
    Grow(w, 63, 0x668b2ff8, 0xef57b9cd, 0xfb3e89cb, 0x065c43da, 0x12b1edeb);
  }

  /** The working variables after every eighth round. */
  const V0 := Vars(0x6a09e667, 0xbb67ae85, 0x3c6ef372, 0xa54ff53a,
                   0x510e527f, 0x9b05688c, 0x1f83d9ab, 0x5be0cd19)
  const V8 := Vars(0x85a07b5f, 0xe5030380, 0x2b4209f5, 0x04409a6a,
                   0x0c657a79, 0x9b27a401, 0x714260ad, 0x43ada245)
  const V16 := Vars(0xb0fa238e, 0xc0645fde, 0xd932eb16, 0x87912990,
                    0x07590dcd, 0x0b92f20c, 0x745a48de, 0x1e578218)
  const V24 := Vars(0xc5d53d8d, 0xa7a3623f, 0xc2606d6d, 0x9dc68b63,
                    0xaa47c347, 0x49f5114a, 0xe1257970, 0x8ada8930)
  const V32 := Vars(0x73b33bf5, 0xea992a22, 0xa0060b30, 0x363482c9,
                    0xba591112, 0x0109ab3a, 0xade79437, 0x6112a3b7)
  const V40 := Vars(0x79ea687a, 0x6dc57a8a, 0x34df1604, 0x41a65cb1,
                    0x1efbc0a0, 0xf0781bc8, 0xa507a53d, 0x0772a26b)
  const V48 := Vars(0x4172328d, 0xa14c14b0, 0x72ab4b91, 0x26628815,
                    0xfecf0bc6, 0xd57b94a9, 0xb7755da1, 0xa80f11f0)
  const V56 := Vars(0x38cc9913, 0x3ec45cdb, 0xf5702fdb, 0x101fd28f,
                    0x54cb266b, 0xe50e1b4f, 0x9f4787c3, 0x529e7d00)
  const V64 := Vars(0x506e3058, 0xd39a2165, 0x04d24d6c, 0xb85e2ce9,
                    0x5ef50f24, 0xfb121210, 0x948d25b6, 0x961f4894)

  lemma Rounds0(w: seq<Word>)
    requires IsSchedule(w) && Rounds(IV, w, 0) == Lift(V0)
    ensures Rounds(IV, w, 8) == Lift(V8)
  {
    hide Rounds, FromBits, Has, Recurrent, Lift;
    Words0(w);
    Constants0();
    Constants4();
    var v := V0;
    v := Advance(w, 0, v, 0x428a2f98, 0x61626380);
    v := Advance(w, 1, v, 0x71374491, 0x00000000);
    v := Advance(w, 2, v, 0xb5c0fbcf, 0x00000000);
    v := Advance(w, 3, v, 0xe9b5dba5, 0x00000000);
    v := Advance(w, 4, v, 0x3956c25b, 0x00000000);
    v := Advance(w, 5, v, 0x59f111f1, 0x00000000);
    v := Advance(w, 6, v, 0x923f82a4, 0x00000000);
    v := Advance(w, 7, v, 0xab1c5ed5, 0x00000000);
    assert v == V8;
  }

  lemma Constants0()
    ensures K(0) == FromBits(0x428a2f98) && K(1) == FromBits(0x71374491)
    ensures K(2) == FromBits(0xb5c0fbcf) && K(3) == FromBits(0xe9b5dba5)
  {
  }

  lemma Constants4()
    ensures K(4) == FromBits(0x3956c25b) && K(5) == FromBits(0x59f111f1)
    ensures K(6) == FromBits(0x923f82a4) && K(7) == FromBits(0xab1c5ed5)
  {
  }

  lemma Rounds8(w: seq<Word>)
    requires IsSchedule(w) && Rounds(IV, w, 8) == Lift(V8)
    ensures Rounds(IV, w, 16) == Lift(V16)
  {
    hide Rounds, FromBits, Has, Recurrent, Lift;
    Words0(w);
    Constants8();
    Constants12();
    var v := V8;
    v := Advance(w, 8, v, 0xd807aa98, 0x00000000);
    v := Advance(w, 9, v, 0x12835b01, 0x00000000);
    v := Advance(w, 10, v, 0x243185be, 0x00000000);
    v := Advance(w, 11, v, 0x550c7dc3, 0x00000000);
    v := Advance(w, 12, v, 0x72be5d74, 0x00000000);
    v := Advance(w, 13, v, 0x80deb1fe, 0x00000000);
    v := Advance(w, 14, v, 0x9bdc06a7, 0x00000000);
    v := Advance(w, 15, v, 0xc19bf174, 0x00000018);
    assert v == V16;
  }

  lemma Constants8()
    ensures K(8) == FromBits(0xd807aa98) && K(9) == FromBits(0x12835b01)
    ensures K(10) == FromBits(0x243185be) && K(11) == FromBits(0x550c7dc3)
  {
  }

  lemma Constants12()
    ensures K(12) == FromBits(0x72be5d74) && K(13) == FromBits(0x80deb1fe)
    ensures K(14) == FromBits(0x9bdc06a7) && K(15) == FromBits(0xc19bf174)
  {
  }

  lemma Rounds16(w: seq<Word>)
    requires IsSchedule(w) && Rounds(IV, w, 16) == Lift(V16)
    ensures Rounds(IV, w, 24) == Lift(V24)
  {
    hide Rounds, FromBits, Has, Recurrent, Lift;
    Words16(w);
    Constants16();
    Constants20();
    var v := V16;
    v := Advance(w, 16, v, 0xe49b69c1, 0x61626380);
    v := Advance(w, 17, v, 0xefbe4786, 0x000f0000);
    v := Advance(w, 18, v, 0x0fc19dc6, 0x7da86405);
    v := Advance(w, 19, v, 0x240ca1cc, 0x600003c6);
    v := Advance(w, 20, v, 0x2de92c6f, 0x3e9d7b78);
    v := Advance(w, 21, v, 0x4a7484aa, 0x0183fc00);
    v := Advance(w, 22, v, 0x5cb0a9dc, 0x12dcbfdb);
    v := Advance(w, 23, v, 0x76f988da, 0xe2e2c38e);
    assert v == V24;
  }

  lemma Constants16()
    ensures K(16) == FromBits(0xe49b69c1) && K(17) == FromBits(0xefbe4786)
    ensures K(18) == FromBits(0x0fc19dc6) && K(19) == FromBits(0x240ca1cc)
  {
  }

  lemma Constants20()
    ensures K(20) == FromBits(0x2de92c6f) && K(21) == FromBits(0x4a7484aa)
    ensures K(22) == FromBits(0x5cb0a9dc) && K(23) == FromBits(0x76f988da)
  {
  }

  lemma Rounds24(w: seq<Word>)
    requires IsSchedule(w) && Rounds(IV, w, 24) == Lift(V24)
    ensures Rounds(IV, w, 32) == Lift(V32)
  {
    hide Rounds, FromBits, Has, Recurrent, Lift;
    Words16(w);
    Constants24();
    Constants28();
    var v := V24;
    v := Advance(w, 24, v, 0x983e5152, 0xc8215c1a);
    v := Advance(w, 25, v, 0xa831c66d, 0xb73679a2);
    v := Advance(w, 26, v, 0xb00327c8, 0xe5bc3909);
    v := Advance(w, 27, v, 0xbf597fc7, 0x32663c5b);
    v := Advance(w, 28, v, 0xc6e00bf3, 0x9d209d67);
    v := Advance(w, 29, v, 0xd5a79147, 0xec8726cb);
    v := Advance(w, 30, v, 0x06ca6351, 0x702138a4);
    v := Advance(w, 31, v, 0x14292967, 0xd3b7973b);
    assert v == V32;
  }

  lemma Constants24()
    ensures K(24) == FromBits(0x983e5152) && K(25) == FromBits(0xa831c66d)
    ensures K(26) == FromBits(0xb00327c8) && K(27) == FromBits(0xbf597fc7)
  {
  }

  lemma Constants28()
    ensures K(28) == FromBits(0xc6e00bf3) && K(29) == FromBits(0xd5a79147)
    ensures K(30) == FromBits(0x06ca6351) && K(31) == FromBits(0x14292967)
  {
  }

  lemma Rounds32(w: seq<Word>)
    requires IsSchedule(w) && Rounds(IV, w, 32) == Lift(V32)
    ensures Rounds(IV, w, 40) == Lift(V40)
  {
    hide Rounds, FromBits, Has, Recurrent, Lift;
    Words32(w);
    Constants32();
    Constants36();
    var v := V32;
    v := Advance(w, 32, v, 0x27b70a85, 0x93f5997f);
    v := Advance(w, 33, v, 0x2e1b2138, 0x3b68ba73);
    v := Advance(w, 34, v, 0x4d2c6dfc, 0xaff4ffc1);
    v := Advance(w, 35, v, 0x53380d13, 0xf10a5c62);
    v := Advance(w, 36, v, 0x650a7354, 0x0a8b3996);
    v := Advance(w, 37, v, 0x766a0abb, 0x72af830a);
    v := Advance(w, 38, v, 0x81c2c92e, 0x9409e33e);
    v := Advance(w, 39, v, 0x92722c85, 0x24641522);
    assert v == V40;
  }

  lemma Constants32()
    ensures K(32) == FromBits(0x27b70a85) && K(33) == FromBits(0x2e1b2138)
    ensures K(34) == FromBits(0x4d2c6dfc) && K(35) == FromBits(0x53380d13)
  {
  }

  lemma Constants36()
    ensures K(36) == FromBits(0x650a7354) && K(37) == FromBits(0x766a0abb)
    ensures K(38) == FromBits(0x81c2c92e) && K(39) == FromBits(0x92722c85)
  {
  }

  lemma Rounds40(w: seq<Word>)
    requires IsSchedule(w) && Rounds(IV, w, 40) == Lift(V40)
    ensures Rounds(IV, w, 48) == Lift(V48)
  {
    hide Rounds, FromBits, Has, Recurrent, Lift;
    Words32(w);
    Constants40();
    Constants44();
    var v := V40;
    v := Advance(w, 40, v, 0xa2bfe8a1, 0x9f47bf94);
    v := Advance(w, 41, v, 0xa81a664b, 0xf0a64f5a);
    v := Advance(w, 42, v, 0xc24b8b70, 0x3e246a79);
    v := Advance(w, 43, v, 0xc76c51a3, 0x27333ba3);
    v := Advance(w, 44, v, 0xd192e819, 0x0c4763f2);
    v := Advance(w, 45, v, 0xd6990624, 0x840abf27);
    v := Advance(w, 46, v, 0xf40e3585, 0x7a290d5d);
    v := Advance(w, 47, v, 0x106aa070, 0x065c43da);
    assert v == V48;
  }

  lemma Constants40()
    ensures K(40) == FromBits(0xa2bfe8a1) && K(41) == FromBits(0xa81a664b)
    ensures K(42) == FromBits(0xc24b8b70) && K(43) == FromBits(0xc76c51a3)
  {
  }

  lemma Constants44()
    ensures K(44) == FromBits(0xd192e819) && K(45) == FromBits(0xd6990624)
    ensures K(46) == FromBits(0xf40e3585) && K(47) == FromBits(0x106aa070)
  {
  }

  lemma Rounds48(w: seq<Word>)
    requires IsSchedule(w) && Rounds(IV, w, 48) == Lift(V48)
    ensures Rounds(IV, w, 56) == Lift(V56)
  {
    hide Rounds, FromBits, Has, Recurrent, Lift;
    Words48(w);
    Constants48();
    Constants52();
    var v := V48;
    v := Advance(w, 48, v, 0x19a4c116, 0xfb3e89cb);
    v := Advance(w, 49, v, 0x1e376c08, 0xcc7617db);
    v := Advance(w, 50, v, 0x2748774c, 0xb9e66c34);
    v := Advance(w, 51, v, 0x34b0bcb5, 0xa9993667);
    v := Advance(w, 52, v, 0x391c0cb3, 0x84badedd);
    v := Advance(w, 53, v, 0x4ed8aa4a, 0xc21462bc);
    v := Advance(w, 54, v, 0x5b9cca4f, 0x1487472c);
    v := Advance(w, 55, v, 0x682e6ff3, 0xb20f7a99);
    assert v == V56;
  }

  lemma Constants48()
    ensures K(48) == FromBits(0x19a4c116) && K(49) == FromBits(0x1e376c08)
    ensures K(50) == FromBits(0x2748774c) && K(51) == FromBits(0x34b0bcb5)
  {
  }

  lemma Constants52()
    ensures K(52) == FromBits(0x391c0cb3) && K(53) == FromBits(0x4ed8aa4a)
    ensures K(54) == FromBits(0x5b9cca4f) && K(55) == FromBits(0x682e6ff3)
  {
  }

  lemma Rounds56(w: seq<Word>)
    requires IsSchedule(w) && Rounds(IV, w, 56) == Lift(V56)
    ensures Rounds(IV, w, 64) == Lift(V64)
  {
    hide Rounds, FromBits, Has, Recurrent, Lift;
    Words48(w);
    Constants56();
    Constants60();
    var v := V56;
    v := Advance(w, 56, v, 0x748f82ee, 0xef57b9cd);
    v := Advance(w, 57, v, 0x78a5636f, 0xebe6b238);
    v := Advance(w, 58, v, 0x84c87814, 0x9fe3095e);
    v := Advance(w, 59, v, 0x8cc70208, 0x78bc8d4b);
    v := Advance(w, 60, v, 0x90befffa, 0xa43fcf15);
    v := Advance(w, 61, v, 0xa4506ceb, 0x668b2ff8);
    v := Advance(w, 62, v, 0xbef9a3f7, 0xeeaba2cc);
    v := Advance(w, 63, v, 0xc67178f2, 0x12b1edeb);
    assert v == V64;
  }

  lemma Constants56()
    ensures K(56) == FromBits(0x748f82ee) && K(57) == FromBits(0x78a5636f)
    ensures K(58) == FromBits(0x84c87814) && K(59) == FromBits(0x8cc70208)
  {
  }

  lemma Constants60()
    ensures K(60) == FromBits(0x90befffa) && K(61) == FromBits(0xa4506ceb)
    ensures K(62) == FromBits(0xbef9a3f7) && K(63) == FromBits(0xc67178f2)
  {
  }

  const DIGEST := State(0xba7816bf, 0x8f01cfea, 0x414140de, 0x5dae2223,
                        0xb00361a3, 0x96177a9c, 0xb410ff61, 0xf20015ad)

  lemma FirstVars()
    ensures Lift(V0) == IV
  {
  }

  lemma LastVars()
    ensures AddState(IV, Lift(V64)) == DIGEST
  {
  }

  lemma CompressionOfAbc()
    ensures Compress(IV, ABC) == DIGEST
  {
    hide Rounds, Lift, AddState, Recurrent;
    var w := Schedule(ABC);
    ScheduleOfAbc();
    FirstVars();
    NoRounds(w);
    Rounds0(w);
    Rounds8(w);
    Rounds16(w);
    Rounds24(w);
    Rounds32(w);
    Rounds40(w);
    Rounds48(w);
    Rounds56(w);
    LastVars();
  }

  lemma NoRounds(w: seq<Word>)
    ensures Rounds(IV, w, 0) == IV
  {
  }

  lemma ScheduleOfAbc()
    ensures IsSchedule(Schedule(ABC))
  {
    hide ExtendSchedule;
    ExtendScheduleRecurrent(ABC);
  }

  const MESSAGE: seq<Byte> := [0x61, 0x62, 0x63]

  lemma AbcBlock()
    ensures |Pad(MESSAGE)| == 64 && BlockOf(Pad(MESSAGE)) == ABC
  {
    var p := Pad(MESSAGE);
    assert p == MESSAGE + [0x80] + Zeros(52) + LengthBytes(24);
    assert LengthBytes(24) == [0, 0, 0, 0, 0, 0, 0, 24];
    forall i | 0 <= i < 16
      ensures BlockOf(p)[i] == ABC[i]
    {
      if i == 0 {
        assert p[0..4] == BytesOf(0x61626380);
        BlockWord(p, 0, 0x61626380);
      } else {
        assert p[4 * i..4 * i + 4] == [0, 0, 0, if i == 15 then 24 else 0];
        BlockWord(p, i, ABC[i]);
      }
    }
  }

  lemma AbcDigest()
    ensures DigestBytes(DIGEST) == [0xba, 0x78, 0x16, 0xbf, 0x8f, 0x01, 0xcf, 0xea,
                                   0x41, 0x41, 0x40, 0xde, 0x5d, 0xae, 0x22, 0x23,
                                   0xb0, 0x03, 0x61, 0xa3, 0x96, 0x17, 0x7a, 0x9c,
                                   0xb4, 0x10, 0xff, 0x61, 0xf2, 0x00, 0x15, 0xad]
  {
    hide BytesOf;
    FirstBytes();
    LastBytes();
  }

  lemma FirstBytes()
    ensures BytesOf(0xba7816bf) == [0xba, 0x78, 0x16, 0xbf]
    ensures BytesOf(0x8f01cfea) == [0x8f, 0x01, 0xcf, 0xea]
    ensures BytesOf(0x414140de) == [0x41, 0x41, 0x40, 0xde]
    ensures BytesOf(0x5dae2223) == [0x5d, 0xae, 0x22, 0x23]
  {
  }

  lemma LastBytes()
    ensures BytesOf(0xb00361a3) == [0xb0, 0x03, 0x61, 0xa3]
    ensures BytesOf(0x96177a9c) == [0x96, 0x17, 0x7a, 0x9c]
    ensures BytesOf(0xb410ff61) == [0xb4, 0x10, 0xff, 0x61]
    ensures BytesOf(0xf20015ad) == [0xf2, 0x00, 0x15, 0xad]
  {
  }

  /** SHA-256 of "abc". */
  lemma HashOfAbc()
    ensures Sha256(MESSAGE) == [0xba, 0x78, 0x16, 0xbf, 0x8f, 0x01, 0xcf, 0xea,
                                0x41, 0x41, 0x40, 0xde, 0x5d, 0xae, 0x22, 0x23,
                                0xb0, 0x03, 0x61, 0xa3, 0x96, 0x17, 0x7a, 0x9c,
                                0xb4, 0x10, 0xff, 0x61, 0xf2, 0x00, 0x15, 0xad]
  {
    hide Compress, BlockOf, Pad, DigestBytes, HashBlocks;
    AbcBlock();
    var p := Pad(MESSAGE);
    HashBlocksEmpty();
    HashBlocksAppend(IV, [], p);
    assert [] + p == p;
    CompressionOfAbc();
    AbcDigest();
  }
}

/** What the checksum of a log record is, and what it detects. */
module CrcFacts {
  import opened Wrappers
  import opened Bytes
  import opened LogFormat
  import opened LogCodec

  // ----- the published check value -----

  lemma CheckValue1()
    ensures && CrcByte(0xffff_ffff, 0x31) == 0x7c23_1048
            && CrcByte(0x7c23_1048, 0x32) == 0xb0ac_bb32
            && CrcByte(0xb0ac_bb32, 0x33) == 0x77b7_9c2d
  {
    assert CrcBits(0xffff_ffce, 8) == 0x7c23_1048;
    assert CrcBits(0x7c23_107a, 8) == 0xb0ac_bb32;
    assert CrcBits(0xb0ac_bb01, 8) == 0x77b7_9c2d;
  }

  lemma CheckValue2()
    ensures && CrcByte(0x77b7_9c2d, 0x34) == 0x641c_1f5c
            && CrcByte(0x641c_1f5c, 0x35) == 0x340a_c5e3
            && CrcByte(0x340a_c5e3, 0x36) == 0xf68d_2c9e
  {
    assert CrcBits(0x77b7_9c19, 8) == 0x641c_1f5c;
    assert CrcBits(0x641c_1f69, 8) == 0x340a_c5e3;
    assert CrcBits(0x340a_c5d5, 8) == 0xf68d_2c9e;
  }

  lemma CheckValue3()
    ensures && CrcByte(0xf68d_2c9e, 0x37) == 0xaffc_9660
            && CrcByte(0xaffc_9660, 0x38) == 0x651f_2550
            && CrcByte(0x651f_2550, 0x39) == 0x340b_c6d9
  {
    assert CrcBits(0xf68d_2ca9, 8) == 0xaffc_9660;
    assert CrcBits(0xaffc_9658, 8) == 0x651f_2550;
    assert CrcBits(0x651f_2569, 8) == 0x340b_c6d9;
  }


  /** The digits from 1 to 9, the text for which the check value of CRC-32 is published. */
  const Digits: seq<Byte> := [0x31, 0x32, 0x33, 0x34, 0x35, 0x36, 0x37, 0x38, 0x39]

  lemma {:induction false} RunOfDigits(n: nat)
    requires n <= 9
    ensures CrcRun(Digits, n, 9, 0)
         == [0xffff_ffff, 0x7c23_1048, 0xb0ac_bb32, 0x77b7_9c2d, 0x641c_1f5c, 0x340a_c5e3, 0xf68d_2c9e, 0xaffc_9660,
             0x651f_2550, 0x340b_c6d9][n]
  {
    if n > 0 {
      var m := n - 1;
      RunOfDigits(m);
      CheckValue1();
      CheckValue2();
      CheckValue3();
    }
  }

  /** The checksum is the CRC-32 of that check value. */
  lemma CheckValue()
    ensures CrcResult(CrcRun(Digits, 9, 9, 0)) == 0xcbf4_3926
  {
    RunOfDigits(9);
    var crc: bv32 := 0x340b_c6d9;
    assert crc ^ 0xffff_ffff == 0xcbf4_3926;
  }

  // ----- one damaged byte -----

  /** The top bit of the polynomial shows which way a round went. */
  lemma RoundIsInjective(a: bv32, b: bv32)
    requires CrcRound(a) == CrcRound(b)
    ensures a == b
  {
  }

  lemma {:induction false} BitsAreInjective(a: bv32, b: bv32, bits: nat)
    requires CrcBits(a, bits) == CrcBits(b, bits)
    ensures a == b
  {
    if bits > 0 {
      var n := bits - 1;
      RoundIsInjective(CrcBits(a, n), CrcBits(b, n));
      BitsAreInjective(a, b, n);
    }
  }

  lemma XorIsInjective(a: bv32, b: bv32, u: bv8, x: bv32, y: bv32)
    requires x == a ^ (u as bv32) && y == b ^ (u as bv32) && x == y
    ensures a == b
  {
  }

  lemma XorIsInjectiveToo(a: bv32, u: bv8, v: bv8, x: bv32, y: bv32)
    requires x == a ^ (u as bv32) && y == a ^ (v as bv32) && x == y
    ensures u == v
  {
  }

  lemma EightBits(x: Byte)
    ensures (x as bv8) as int == x
  {
    assert x % 256 == x && x == 16 * (x / 16) + x % 16;
  }

  /** Nothing that came before is lost. */
  lemma StartIsKept(a: bv32, b: bv32, x: Byte)
    ensures CrcByte(a, x) == CrcByte(b, x) ==> a == b
  {
    var u := x as bv8;
    var c, d := a ^ (u as bv32), b ^ (u as bv32);
    if CrcBits(c, 8) == CrcBits(d, 8) {
      BitsAreInjective(c, d, 8);
      XorIsInjective(a, b, u, c, d);
    }
  }

  /** Nor is the byte itself. */
  lemma ByteIsKept(a: bv32, x: Byte, y: Byte)
    requires CrcByte(a, x) == CrcByte(a, y)
    ensures x == y
  {
    var u, v := x as bv8, y as bv8;
    var c, d := a ^ (u as bv32), a ^ (v as bv32);
    BitsAreInjective(c, d, 8);
    XorIsInjectiveToo(a, u, v, c, d);
    EightBits(x);
    EightBits(y);
  }

  /** The two differ at this place and nowhere else. */
  ghost predicate DifferAt(b: seq<Byte>, c: seq<Byte>, k: nat) {
    k < |b| == |c| && b[k] != c[k] && forall i :: 0 <= i < |b| && i != k ==> b[i] == c[i]
  }

  lemma {:induction false} RunsDiffer(b: seq<Byte>, c: seq<Byte>, n: nat, k: nat)
    requires DifferAt(b, c, k) && n <= |b| && !(CHECKSUM_AT <= k < CHECKSUM_AT + 4)
    ensures CrcRun(b, n, CHECKSUM_AT, 4) == CrcRun(c, n, CHECKSUM_AT, 4) <==> n <= k
  {
    if n > 0 {
      var m := n - 1;
      RunsDiffer(b, c, m, k);
      var x, y := CrcRun(b, m, CHECKSUM_AT, 4), CrcRun(c, m, CHECKSUM_AT, 4);
      if m == k {
        if CrcByte(x, b[m]) == CrcByte(x, c[m]) { ByteIsKept(x, b[m], c[m]); }
      } else {
        if CrcByte(x, b[m]) == CrcByte(y, b[m]) { StartIsKept(x, y, b[m]); }
      }
    }
  }

  lemma NumberIsInjective(x: bv32, y: bv32)
    requires x as nat == y as nat
    ensures x == y
  {
    assert (x as nat) as bv32 == x;
    assert (y as nat) as bv32 == y;
  }

  lemma FlippedIsInjective(a: bv32, b: bv32, x: bv32, y: bv32)
    requires x == a ^ 0xffff_ffff && y == b ^ 0xffff_ffff && x == y
    ensures a == b
  {
  }

  lemma ResultIsInjective(a: bv32, b: bv32)
    requires CrcResult(a) == CrcResult(b)
    ensures a == b
  {
    var x, y := a ^ 0xffff_ffff, b ^ 0xffff_ffff;
    NumberIsInjective(x, y);
    FlippedIsInjective(a, b, x, y);
  }

  lemma SameResult(b: seq<Byte>, c: seq<Byte>)
    requires |b| == |c| && Checksum(b) == Checksum(c)
    ensures CrcRun(b, |b|, CHECKSUM_AT, 4) == CrcRun(c, |b|, CHECKSUM_AT, 4)
  {
    ResultIsInjective(CrcRun(b, |b|, CHECKSUM_AT, 4), CrcRun(c, |b|, CHECKSUM_AT, 4));
  }

  /** A damaged byte changes the checksum, unless it is one of the checksum's own. */
  lemma ChecksumDiffersIff(b: seq<Byte>, c: seq<Byte>, k: nat)
    requires DifferAt(b, c, k)
    ensures Checksum(b) != Checksum(c) <==> !(CHECKSUM_AT <= k < CHECKSUM_AT + 4)
  {
    if CHECKSUM_AT <= k < CHECKSUM_AT + 4 {
      ChecksumSkips(b, c, |b|);
    } else if Checksum(b) == Checksum(c) {
      SameResult(b, c);
      RunsDiffer(b, c, |b|, k);
    }
  }

  lemma FieldDiffers(b: seq<Byte>, c: seq<Byte>, k: nat, offset: nat, n: nat)
    requires DifferAt(b, c, k) && offset + n <= |b|
    ensures Field(b, offset, n) != Field(c, offset, n) <==> offset <= k < offset + n
  {
    var x, y := b[offset..offset + n], c[offset..offset + n];
    if offset <= k < offset + n {
      var i := k - offset;
      assert x[i] == b[k] && y[i] == c[k];
      LoadThenStore(x);
      LoadThenStore(y);
    } else {
      assert x == y;
    }
  }

  /** No record with one damaged byte is decoded, wherever the byte lies. */
  lemma DamageIsDetected(b: seq<Byte>, c: seq<Byte>, k: nat)
    requires Decode(b).Some? && DifferAt(b, c, k)
    ensures Decode(c) == None
  {
    ChecksumDiffersIff(b, c, k);
    FieldDiffers(b, c, k, CHECKSUM_AT, 4);
  }
}

/** CRC-32 as section 8 of RFC 1952 defines it, bit by bit, and why it catches a damaged byte. */
module Crc {
  type Octets = seq<bv8>

  /** One bit of the register: shift right, and fold in the polynomial if a one fell out. */
  function Bit(crc: bv32): bv32 {
    (crc >> 1) ^ (0xEDB8_8320 & (0 - (crc & 1)))
  }

  function Bits(crc: bv32, n: nat): bv32 { if n == 0 then crc else Bit(Bits(crc, n - 1)) }

  function Step(crc: bv32, byte: bv8): bv32 {
    Bits(crc ^ (byte as bv32), 8)
  }

  function Register(crc: bv32, data: Octets): bv32 {
    if data == [] then crc else Step(Register(crc, data[..|data| - 1]), data[|data| - 1])
  }

  function Crc32(data: Octets): bv32 { Register(0xFFFF_FFFF, data) ^ 0xFFFF_FFFF }

  function Joined(parts: seq<Octets>): Octets {
    if parts == [] then [] else Joined(parts[..|parts| - 1]) + parts[|parts| - 1]
  }

  /** The checksum of several ranges is the checksum of their concatenation. */
  method Crc32Parts(parts: seq<Octets>) returns (crc: bv32)
    ensures crc == Crc32(Joined(parts))
  {
    hide Bit, Step;
    crc := 0xFFFF_FFFF;
    for i := 0 to |parts|
      invariant crc == Register(0xFFFF_FFFF, Joined(parts[..i]))
    {
      ghost var before := Joined(parts[..i]);
      assert before + parts[i][..0] == before;
      for j := 0 to |parts[i]|
        invariant crc == Register(0xFFFF_FFFF, before + parts[i][..j])
      {
        RegisterStep(0xFFFF_FFFF, before + parts[i][..j], parts[i][j]);
        assert before + parts[i][..j] + [parts[i][j]] == before + parts[i][..j + 1];
        crc := NextRegister(crc, parts[i][j]);
      }
      assert parts[i][..|parts[i]|] == parts[i];
      assert parts[..i + 1][..i] == parts[..i];
    }
    assert parts[..|parts|] == parts;
    crc := crc ^ 0xFFFF_FFFF;
  }

  method NextRegister(crc: bv32, byte: bv8) returns (r: bv32)
    ensures r == Step(crc, byte)
  {
    hide Bit;
    r := crc ^ (byte as bv32);
    for k := 0 to 8
      invariant r == Bits(crc ^ (byte as bv32), k)
    {
      r := Bit(r);
    }
  }

  lemma RegisterStep(crc: bv32, data: Octets, byte: bv8)
    ensures Register(crc, data + [byte]) == Step(Register(crc, data), byte)
  {
    assert (data + [byte])[..|data|] == data;
  }

  lemma {:induction false} RegisterConcat(crc: bv32, a: Octets, b: Octets)
    ensures Register(crc, a + b) == Register(Register(crc, a), b)
  {
    hide Step;
    if b == [] {
      assert a + b == a;
    } else {
      assert (a + b)[..|a + b| - 1] == a + b[..|b| - 1];
      RegisterConcat(crc, a, b[..|b| - 1]);
    }
  }

  /** A shift that folds in a polynomial with its top bit set loses nothing. */
  lemma BitInjective(x: bv32, y: bv32)
    ensures Bit(x) == Bit(y) ==> x == y
  {
  }

  lemma {:induction false} BitsInjective(x: bv32, y: bv32, n: nat)
    requires Bits(x, n) == Bits(y, n)
    ensures x == y
  {
    hide Bit;
    if n > 0 {
      BitInjective(Bits(x, n - 1), Bits(y, n - 1));
      BitsInjective(x, y, n - 1);
    }
  }

  lemma StepInjective(x: bv32, y: bv32, b: bv8, c: bv8)
    requires Step(x, b) == Step(y, c)
    ensures x ^ (b as bv32) == y ^ (c as bv32)
  {
    hide Bits;
    BitsInjective(x ^ (b as bv32), y ^ (c as bv32), 8);
  }

  lemma XorSame(x: bv32, y: bv32, b: bv8)
    ensures x ^ (b as bv32) == y ^ (b as bv32) ==> x == y
  {
  }

  lemma XorApart(x: bv32, b: bv8, c: bv8)
    ensures x ^ (b as bv32) == x ^ (c as bv32) ==> b == c
  {
  }

  /** Different registers stay different whatever bytes follow. */
  lemma {:induction false} RegisterInjective(x: bv32, y: bv32, data: Octets)
    requires Register(x, data) == Register(y, data)
    ensures x == y
  {
    hide Step;
    if data != [] {
      var front, last := data[..|data| - 1], data[|data| - 1];
      var p, q := Register(x, front), Register(y, front);
      StepInjective(p, q, last, last);
      XorSame(p, q, last);
      RegisterInjective(x, y, front);
    }
  }

  /** Payloads that differ in exactly one byte have different checksums. */
  lemma OneByteShows(a: Octets, b: Octets, i: nat)
    requires |a| == |b| && i < |a| && a[i] != b[i]
    requires forall j :: 0 <= j < |a| && j != i ==> a[j] == b[j]
    ensures Crc32(a) != Crc32(b)
  {
    hide Step;
    var head, tail, start := a[..i], a[i + 1..], 0xFFFF_FFFF as bv32;
    assert a == (head + [a[i]]) + tail && b == (head + [b[i]]) + tail;
    RegisterConcat(start, head + [a[i]], tail);
    RegisterConcat(start, head + [b[i]], tail);
    RegisterStep(start, head, a[i]);
    RegisterStep(start, head, b[i]);
    var r := Register(start, head);
    XorApart(r, a[i], b[i]);
    if Crc32(a) == Crc32(b) {
      Complement(Register(start, a), Register(start, b));
      RegisterInjective(Step(r, a[i]), Step(r, b[i]), tail);
      StepInjective(r, r, a[i], b[i]);
    }
  }

  lemma Complement(x: bv32, y: bv32)
    ensures x ^ 0xFFFF_FFFF == y ^ 0xFFFF_FFFF ==> x == y
  {
  }

  // ---- the table-driven form ----

  /** The 256-entry table of the sample code in section 8 of RFC 1952. */
  function Table(n: bv8): bv32 { Bits(n as bv32, 8) }

  const POLYNOMIAL: bv32 := 0xEDB8_8320

  function Xor(x: bv32, y: bv32): bv32 { x ^ y }

  function Half(x: bv32): bv32 { x >> 1 }

  predicate Odd(x: bv32) { x & 1 == 1 }

  lemma BitForm(x: bv32)
    ensures Bit(x) == if Odd(x) then Xor(Half(x), POLYNOMIAL) else Half(x)
  {
    if x & 1 == 1 {
      assert 0 - (x & 1) == 0xFFFF_FFFF;
    } else {
      assert x & 1 == 0;
    }
  }

  lemma HalfXor(x: bv32, y: bv32)
    ensures Half(Xor(x, y)) == Xor(Half(x), Half(y))
  {
  }

  lemma OddXor(x: bv32, y: bv32)
    ensures Odd(Xor(x, y)) <==> Odd(x) != Odd(y)
  {
  }

  lemma XorAssoc(x: bv32, y: bv32, z: bv32)
    ensures Xor(Xor(x, y), z) == Xor(x, Xor(y, z))
  {
  }

  lemma XorSwaps(x: bv32, y: bv32)
    ensures Xor(x, y) == Xor(y, x)
  {
  }

  lemma XorCancels(x: bv32, y: bv32, z: bv32)
    ensures Xor(Xor(x, z), Xor(y, z)) == Xor(x, y)
  {
    hide Xor;
    XorAssoc(x, z, Xor(y, z));
    XorSwaps(y, z);
    XorAssoc(z, z, y);
    XorSelf(z, y);
  }

  lemma XorSelf(x: bv32, y: bv32)
    ensures Xor(Xor(x, x), y) == y
  {
  }

  lemma BitLinear(x: bv32, y: bv32)
    ensures Bit(Xor(x, y)) == Xor(Bit(x), Bit(y))
  {
    hide Bit, Xor, Half, Odd;
    BitForm(x);
    BitForm(y);
    BitForm(Xor(x, y));
    OddXor(x, y);
    HalfXor(x, y);
    var p, q := Half(x), Half(y);
    XorCancels(p, q, POLYNOMIAL);
    XorAssoc(p, q, POLYNOMIAL);
    XorAssoc(p, POLYNOMIAL, q);
    XorSwaps(POLYNOMIAL, q);
  }

  lemma {:induction false} BitsLinear(x: bv32, y: bv32, n: nat)
    ensures Bits(Xor(x, y), n) == Xor(Bits(x, n), Bits(y, n))
  {
    hide Bit, Xor;
    if n > 0 {
      BitsLinear(x, y, n - 1);
      BitLinear(Bits(x, n - 1), Bits(y, n - 1));
    }
  }

  lemma HighByte(x: bv32)
    ensures Half(Half(Half(Half(Half(Half(Half(Half(x)))))))) == x >> 8
  {
  }

  lemma LowByteEven(x: bv32)
    requires x & 0xFF == 0
    ensures !Odd(x) && !Odd(Half(x)) && !Odd(Half(Half(x))) && !Odd(Half(Half(Half(x))))
    ensures !Odd(Half(Half(Half(Half(x))))) && !Odd(Half(Half(Half(Half(Half(x))))))
    ensures !Odd(Half(Half(Half(Half(Half(Half(x)))))))
    ensures !Odd(Half(Half(Half(Half(Half(Half(Half(x))))))))
  {
  }

  /** Zero bits only shift out. */
  lemma EvenShifts(x: bv32)
    requires !Odd(x)
    ensures Bit(x) == Half(x)
  {
    hide Bit, Odd, Half, Xor;
    BitForm(x);
  }

  lemma HighShifts(x: bv32)
    requires x & 0xFF == 0
    ensures Bits(x, 8) == x >> 8
  {
    LowByteEven(x);
    HighByte(x);
    EightEven(x);
  }

  lemma EightEven(x: bv32)
    requires !Odd(x) && !Odd(Half(x)) && !Odd(Half(Half(x))) && !Odd(Half(Half(Half(x))))
    requires !Odd(Half(Half(Half(Half(x))))) && !Odd(Half(Half(Half(Half(Half(x))))))
    requires !Odd(Half(Half(Half(Half(Half(Half(x)))))))
    requires !Odd(Half(Half(Half(Half(Half(Half(Half(x))))))))
    ensures Bits(x, 8) == Half(Half(Half(Half(Half(Half(Half(Half(x))))))))
  {
    hide Bit, Odd, Half;
    var b := Half(x);
    var c := Half(b);
    var d := Half(c);
    var e := Half(d);
    var f := Half(e);
    var g := Half(f);
    var h := Half(g);
    EvenShifts(x);
    EvenShifts(b);
    EvenShifts(c);
    EvenShifts(d);
    EvenShifts(e);
    EvenShifts(f);
    EvenShifts(g);
    EvenShifts(h);
    EightTimes(x, b, c, d, e, f, g, h, Half(h));
  }

  lemma EightTimes(a: bv32, b: bv32, c: bv32, d: bv32, e: bv32, f: bv32, g: bv32, h: bv32, i: bv32)
    requires Bit(a) == b && Bit(b) == c && Bit(c) == d && Bit(d) == e
    requires Bit(e) == f && Bit(f) == g && Bit(g) == h && Bit(h) == i
    ensures Bits(a, 8) == i
  {
    hide Bit;
    assert Bits(a, 0) == a;
    assert Bits(a, 1) == b;
    assert Bits(a, 2) == c;
    assert Bits(a, 3) == d;
    assert Bits(a, 4) == e;
    assert Bits(a, 5) == f;
    assert Bits(a, 6) == g;
    assert Bits(a, 7) == h;
  }

  function Upper(x: bv32): bv32 { x & 0xFFFF_FF00 }

  function Lower(x: bv32): bv32 { ((x & 0xFF) as bv8) as bv32 }

  lemma Parts(x: bv32)
    ensures x == Xor(Upper(x), Lower(x))
  {
  }

  lemma UpperShifts(x: bv32)
    ensures Bits(Upper(x), 8) == x >> 8
  {
    hide Bits, Upper;
    UpperLow(x);
    UpperHigh(x);
    HighShifts(Upper(x));
  }

  lemma UpperLow(x: bv32)
    ensures Upper(x) & 0xFF == 0
  {
  }

  lemma UpperHigh(x: bv32)
    ensures Upper(x) >> 8 == x >> 8
  {
  }

  lemma ByteShiftsOut(crc: bv32, byte: bv8)
    ensures (crc ^ (byte as bv32)) >> 8 == crc >> 8
  {
  }

  lemma Assembled(x: bv32)
    ensures Bits(x, 8) == Xor(Bits(Lower(x), 8), x >> 8)
  {
    hide Bits, Xor, Upper, Lower;
    Parts(x);
    BitsLinear(Upper(x), Lower(x), 8);
    UpperShifts(x);
    XorSwaps(Bits(Upper(x), 8), Bits(Lower(x), 8));
  }

  /** Shifting bit by bit is the table-driven update of that sample code. */
  lemma TableDriven(crc: bv32, byte: bv8)
    ensures Step(crc, byte) == Table(((crc ^ (byte as bv32)) & 0xFF) as bv8) ^ (crc >> 8)
  {
    hide Bits;
    Assembled(crc ^ (byte as bv32));
    ByteShiftsOut(crc, byte);
  }

  // ---- the check value ----

  /** One byte through the register, every shift written out. */
  lemma Shifted(crc: bv32, byte: bv8, a: bv32, b: bv32, c: bv32, d: bv32, e: bv32, f: bv32, g: bv32, h: bv32, i: bv32)
    requires crc ^ (byte as bv32) == a && Bit(a) == b && Bit(b) == c && Bit(c) == d && Bit(d) == e
    requires Bit(e) == f && Bit(f) == g && Bit(g) == h && Bit(h) == i
    ensures Step(crc, byte) == i
  {
    hide Bit, Bits;
    EightTimes(a, b, c, d, e, f, g, h, i);
  }

  lemma FirstThree()
    ensures Step(0xFFFF_FFFF, 0x31) == 0x7C23_1048
    ensures Step(0x7C23_1048, 0x32) == 0xB0AC_BB32
    ensures Step(0xB0AC_BB32, 0x33) == 0x77B7_9C2D
  {
    hide Step;
    Shifted(0xFFFF_FFFF, 0x31, 0xFFFF_FFCE, 0x7FFF_FFE7, 0xD247_7CD3, 0x849B_3D49,
            0xAFF5_1D84, 0x57FA_8EC2, 0x2BFD_4761, 0xF846_2090, 0x7C23_1048);
    Shifted(0x7C23_1048, 0x32, 0x7C23_107A, 0x3E11_883D, 0xF2B0_473E, 0x7958_239F,
            0xD114_92EF, 0x8532_CA57, 0xAF21_E60B, 0xBA28_7025, 0xB0AC_BB32);
    Shifted(0xB0AC_BB32, 0x33, 0xB0AC_BB01, 0xB5EE_DEA0, 0x5AF7_6F50, 0x2D7B_B7A8,
            0x16BD_DBD4, 0x0B5E_EDEA, 0x05AF_76F5, 0xEF6F_385A, 0x77B7_9C2D);
  }

  lemma MiddleThree()
    ensures Step(0x77B7_9C2D, 0x34) == 0x641C_1F5C
    ensures Step(0x641C_1F5C, 0x35) == 0x340A_C5E3
    ensures Step(0x340A_C5E3, 0x36) == 0xF68D_2C9E
  {
    hide Step;
    Shifted(0x77B7_9C2D, 0x34, 0x77B7_9C19, 0xD663_4D2C, 0x6B31_A696, 0x3598_D34B,
            0xF774_EA85, 0x9602_F662, 0x4B01_7B31, 0xC838_3EB8, 0x641C_1F5C);
    Shifted(0x641C_1F5C, 0x35, 0x641C_1F69, 0xDFB6_8C94, 0x6FDB_464A, 0x37ED_A325,
            0xF64E_52B2, 0x7B27_2959, 0xD02B_178C, 0x6815_8BC6, 0x340A_C5E3);
    Shifted(0x340A_C5E3, 0x36, 0x340A_C5D5, 0xF7BD_E1CA, 0x7BDE_F0E5, 0xD057_FB52,
            0x682B_FDA9, 0xD9AD_7DF4, 0x6CD6_BEFA, 0x366B_5F7D, 0xF68D_2C9E);
  }

  lemma LastThree()
    ensures Step(0xF68D_2C9E, 0x37) == 0xAFFC_9660
    ensures Step(0xAFFC_9660, 0x38) == 0x651F_2550
    ensures Step(0x651F_2550, 0x39) == 0x340B_C6D9
  {
    hide Step;
    Shifted(0xF68D_2C9E, 0x37, 0xF68D_2CA9, 0x96FE_1574, 0x4B7F_0ABA, 0x25BF_855D,
            0xFF67_418E, 0x7FB3_A0C7, 0xD261_5343, 0x8488_2A81, 0xAFFC_9660);
    Shifted(0xAFFC_9660, 0x38, 0xAFFC_9658, 0x57FE_4B2C, 0x2BFF_2596, 0x15FF_92CB,
            0xE747_4A45, 0x9E1B_2602, 0x4F0D_9301, 0xCA3E_4AA0, 0x651F_2550);
    Shifted(0x651F_2550, 0x39, 0x651F_2569, 0xDF37_1194, 0x6F9B_88CA, 0x37CD_C465,
            0xF65E_6112, 0x7B2F_3089, 0xD02F_1B64, 0x6817_8DB2, 0x340B_C6D9);
  }

  const CHECK: Octets := [0x31, 0x32, 0x33, 0x34, 0x35, 0x36, 0x37, 0x38, 0x39]

  /** The standard check value: the checksum of the digits one to nine. */
  lemma CheckValue()
    ensures Crc32(CHECK) == 0xCBF4_3926
  {
    hide Step, Register;
    FirstThree();
    MiddleThree();
    LastThree();
    assert CHECK[..0] == [];
    RegisterNone(0xFFFF_FFFF);
    RegisterStep(0xFFFF_FFFF, CHECK[..0], CHECK[0]);
    RegisterStep(0xFFFF_FFFF, CHECK[..1], CHECK[1]);
    RegisterStep(0xFFFF_FFFF, CHECK[..2], CHECK[2]);
    RegisterStep(0xFFFF_FFFF, CHECK[..3], CHECK[3]);
    RegisterStep(0xFFFF_FFFF, CHECK[..4], CHECK[4]);
    RegisterStep(0xFFFF_FFFF, CHECK[..5], CHECK[5]);
    RegisterStep(0xFFFF_FFFF, CHECK[..6], CHECK[6]);
    RegisterStep(0xFFFF_FFFF, CHECK[..7], CHECK[7]);
    RegisterStep(0xFFFF_FFFF, CHECK[..8], CHECK[8]);
    assert CHECK[..0] + [CHECK[0]] == CHECK[..1];
    assert CHECK[..1] + [CHECK[1]] == CHECK[..2];
    assert CHECK[..2] + [CHECK[2]] == CHECK[..3];
    assert CHECK[..3] + [CHECK[3]] == CHECK[..4];
    assert CHECK[..4] + [CHECK[4]] == CHECK[..5];
    assert CHECK[..5] + [CHECK[5]] == CHECK[..6];
    assert CHECK[..6] + [CHECK[6]] == CHECK[..7];
    assert CHECK[..7] + [CHECK[7]] == CHECK[..8];
    assert CHECK[..8] + [CHECK[8]] == CHECK[..9];
    assert CHECK[..9] == CHECK;
  }

  lemma RegisterNone(crc: bv32)
    ensures Register(crc, []) == crc
  {
  }
}

/**
 The FCS checksum (hostap08/wlantest/crc32.c).  The register is reflected: bit 0 is the coefficient
 of x^31.
 */
module Crc32 {
  import opened Iteration
  import opened Selection

  // ---- The constant table

  function Bit(i: bv8, m: bv8, c: bv32): bv32 { if i & m == 0 then 0 else c }

  /** The eight entries at powers of two generate the table. */
  function Combine(i: bv8): bv32 {
    Sum(Bit(i, 1, 0x77073096), Bit(i, 2, 0xee0e612c), Bit(i, 4, 0x076dc419), Bit(i, 8, 0x0edb8832),
        Bit(i, 16, 0x1db71064), Bit(i, 32, 0x3b6e20c8), Bit(i, 64, 0x76dc4190), Bit(i, 128, 0xedb88320))
  }

  function Sum(x0: bv32, x1: bv32, x2: bv32, x3: bv32, x4: bv32, x5: bv32, x6: bv32, x7: bv32): bv32 {
    Plus(Plus(Plus(Plus(Plus(Plus(Plus(x0, x1), x2), x3), x4), x5), x6), x7)
  }

  function Plus(x: bv32, y: bv32): bv32 { x ^ y }

  function Table00(i: bv8): (r: bv32)
    requires i & 0xc0 == 0x00
    ensures r == Combine(i)
  {
    Select(i >> 3,
      Select(i, 0x00000000, 0x77073096, 0xee0e612c, 0x990951ba, 0x076dc419, 0x706af48f, 0xe963a535, 0x9e6495a3),
      Select(i, 0x0edb8832, 0x79dcb8a4, 0xe0d5e91e, 0x97d2d988, 0x09b64c2b, 0x7eb17cbd, 0xe7b82d07, 0x90bf1d91),
      Select(i, 0x1db71064, 0x6ab020f2, 0xf3b97148, 0x84be41de, 0x1adad47d, 0x6ddde4eb, 0xf4d4b551, 0x83d385c7),
      Select(i, 0x136c9856, 0x646ba8c0, 0xfd62f97a, 0x8a65c9ec, 0x14015c4f, 0x63066cd9, 0xfa0f3d63, 0x8d080df5),
      Select(i, 0x3b6e20c8, 0x4c69105e, 0xd56041e4, 0xa2677172, 0x3c03e4d1, 0x4b04d447, 0xd20d85fd, 0xa50ab56b),
      Select(i, 0x35b5a8fa, 0x42b2986c, 0xdbbbc9d6, 0xacbcf940, 0x32d86ce3, 0x45df5c75, 0xdcd60dcf, 0xabd13d59),
      Select(i, 0x26d930ac, 0x51de003a, 0xc8d75180, 0xbfd06116, 0x21b4f4b5, 0x56b3c423, 0xcfba9599, 0xb8bda50f),
      Select(i, 0x2802b89e, 0x5f058808, 0xc60cd9b2, 0xb10be924, 0x2f6f7c87, 0x58684c11, 0xc1611dab, 0xb6662d3d))
  }

  function Table40(i: bv8): (r: bv32)
    requires i & 0xc0 == 0x40
    ensures r == Combine(i)
  {
    Select(i >> 3,
      Select(i, 0x76dc4190, 0x01db7106, 0x98d220bc, 0xefd5102a, 0x71b18589, 0x06b6b51f, 0x9fbfe4a5, 0xe8b8d433),
      Select(i, 0x7807c9a2, 0x0f00f934, 0x9609a88e, 0xe10e9818, 0x7f6a0dbb, 0x086d3d2d, 0x91646c97, 0xe6635c01),
      Select(i, 0x6b6b51f4, 0x1c6c6162, 0x856530d8, 0xf262004e, 0x6c0695ed, 0x1b01a57b, 0x8208f4c1, 0xf50fc457),
      Select(i, 0x65b0d9c6, 0x12b7e950, 0x8bbeb8ea, 0xfcb9887c, 0x62dd1ddf, 0x15da2d49, 0x8cd37cf3, 0xfbd44c65),
      Select(i, 0x4db26158, 0x3ab551ce, 0xa3bc0074, 0xd4bb30e2, 0x4adfa541, 0x3dd895d7, 0xa4d1c46d, 0xd3d6f4fb),
      Select(i, 0x4369e96a, 0x346ed9fc, 0xad678846, 0xda60b8d0, 0x44042d73, 0x33031de5, 0xaa0a4c5f, 0xdd0d7cc9),
      Select(i, 0x5005713c, 0x270241aa, 0xbe0b1010, 0xc90c2086, 0x5768b525, 0x206f85b3, 0xb966d409, 0xce61e49f),
      Select(i, 0x5edef90e, 0x29d9c998, 0xb0d09822, 0xc7d7a8b4, 0x59b33d17, 0x2eb40d81, 0xb7bd5c3b, 0xc0ba6cad))
  }

  function Table80(i: bv8): (r: bv32)
    requires i & 0xc0 == 0x80
    ensures r == Combine(i)
  {
    Select(i >> 3,
      Select(i, 0xedb88320, 0x9abfb3b6, 0x03b6e20c, 0x74b1d29a, 0xead54739, 0x9dd277af, 0x04db2615, 0x73dc1683),
      Select(i, 0xe3630b12, 0x94643b84, 0x0d6d6a3e, 0x7a6a5aa8, 0xe40ecf0b, 0x9309ff9d, 0x0a00ae27, 0x7d079eb1),
      Select(i, 0xf00f9344, 0x8708a3d2, 0x1e01f268, 0x6906c2fe, 0xf762575d, 0x806567cb, 0x196c3671, 0x6e6b06e7),
      Select(i, 0xfed41b76, 0x89d32be0, 0x10da7a5a, 0x67dd4acc, 0xf9b9df6f, 0x8ebeeff9, 0x17b7be43, 0x60b08ed5),
      Select(i, 0xd6d6a3e8, 0xa1d1937e, 0x38d8c2c4, 0x4fdff252, 0xd1bb67f1, 0xa6bc5767, 0x3fb506dd, 0x48b2364b),
      Select(i, 0xd80d2bda, 0xaf0a1b4c, 0x36034af6, 0x41047a60, 0xdf60efc3, 0xa867df55, 0x316e8eef, 0x4669be79),
      Select(i, 0xcb61b38c, 0xbc66831a, 0x256fd2a0, 0x5268e236, 0xcc0c7795, 0xbb0b4703, 0x220216b9, 0x5505262f),
      Select(i, 0xc5ba3bbe, 0xb2bd0b28, 0x2bb45a92, 0x5cb36a04, 0xc2d7ffa7, 0xb5d0cf31, 0x2cd99e8b, 0x5bdeae1d))
  }

  function Tablec0(i: bv8): (r: bv32)
    requires i & 0xc0 == 0xc0
    ensures r == Combine(i)
  {
    Select(i >> 3,
      Select(i, 0x9b64c2b0, 0xec63f226, 0x756aa39c, 0x026d930a, 0x9c0906a9, 0xeb0e363f, 0x72076785, 0x05005713),
      Select(i, 0x95bf4a82, 0xe2b87a14, 0x7bb12bae, 0x0cb61b38, 0x92d28e9b, 0xe5d5be0d, 0x7cdcefb7, 0x0bdbdf21),
      Select(i, 0x86d3d2d4, 0xf1d4e242, 0x68ddb3f8, 0x1fda836e, 0x81be16cd, 0xf6b9265b, 0x6fb077e1, 0x18b74777),
      Select(i, 0x88085ae6, 0xff0f6a70, 0x66063bca, 0x11010b5c, 0x8f659eff, 0xf862ae69, 0x616bffd3, 0x166ccf45),
      Select(i, 0xa00ae278, 0xd70dd2ee, 0x4e048354, 0x3903b3c2, 0xa7672661, 0xd06016f7, 0x4969474d, 0x3e6e77db),
      Select(i, 0xaed16a4a, 0xd9d65adc, 0x40df0b66, 0x37d83bf0, 0xa9bcae53, 0xdebb9ec5, 0x47b2cf7f, 0x30b5ffe9),
      Select(i, 0xbdbdf21c, 0xcabac28a, 0x53b39330, 0x24b4a3a6, 0xbad03605, 0xcdd70693, 0x54de5729, 0x23d967bf),
      Select(i, 0xb3667a2e, 0xc4614ab8, 0x5d681b02, 0x2a6f2b94, 0xb40bbe37, 0xc30c8ea1, 0x5a05df1b, 0x2d02ef8d))
  }

  function Table(i: bv8): (r: bv32)
    ensures r == Combine(i)
  {
    if i & 0xc0 == 0x00 then Table00(i)
    else if i & 0xc0 == 0x40 then Table40(i)
    else if i & 0xc0 == 0x80 then Table80(i)
    else Tablec0(i)
  }

  // ---- Bit by bit

  const POLYNOMIAL: bv32 := 0xedb88320

  function Step(r: bv32): bv32 {
    if r & 1 == 1 then (r >> 1) ^ POLYNOMIAL else r >> 1
  }

  function Steps(r: bv32, n: nat): bv32 {
    Iterate(Step, r, n)
  }

  lemma StepOddOdd(x: bv32, y: bv32)
    requires x & 1 == 1 && y & 1 == 1
    ensures Step(x ^ y) == Step(x) ^ Step(y)
  {
  }

  lemma StepOddEven(x: bv32, y: bv32)
    requires x & 1 == 1 && y & 1 != 1
    ensures Step(x ^ y) == Step(x) ^ Step(y)
  {
  }

  lemma StepEvenEven(x: bv32, y: bv32)
    requires x & 1 != 1 && y & 1 != 1
    ensures Step(x ^ y) == Step(x) ^ Step(y)
  {
  }

  lemma StepLinear(x: bv32, y: bv32)
    ensures Step(x ^ y) == Step(x) ^ Step(y)
  {
    if x & 1 == 1 && y & 1 == 1 {
      StepOddOdd(x, y);
    } else if x & 1 == 1 {
      StepOddEven(x, y);
    } else if y & 1 == 1 {
      StepOddEven(y, x);
      assert x ^ y == y ^ x && Step(x) ^ Step(y) == Step(y) ^ Step(x);
    } else {
      StepEvenEven(x, y);
    }
  }

  lemma {:induction false} IterateLinear<T(!new)>(f: T -> T, plus: (T, T) -> T, x: T, y: T, n: nat)
    requires forall a, b :: f(plus(a, b)) == plus(f(a), f(b))
    ensures Iterate(f, plus(x, y), n) == plus(Iterate(f, x, n), Iterate(f, y, n))
    decreases n
  {
    if n > 0 {
      IterateLinear(f, plus, f(x), f(y), n - 1);
    }
  }

  lemma StepIsLinear()
    ensures forall a, b :: Step(Plus(a, b)) == Plus(Step(a), Step(b))
  {
    forall a, b ensures Step(Plus(a, b)) == Plus(Step(a), Step(b)) {
      StepLinear(a, b);
    }
  }

  lemma StepsLinear(x: bv32, y: bv32, n: nat)
    ensures Steps(Plus(x, y), n) == Plus(Steps(x, n), Steps(y, n))
  {
    StepIsLinear();
    IterateLinear(Step, Plus, x, y, n);
  }

  // ---- The table is eight steps at once

  const OCTET_MASKS: seq<bv8> := [1, 2, 4, 8, 16, 32, 64, 128]

  /** One step for each bit of an octet. */
  function EightSteps(r: bv32): bv32 { Steps(r, |OCTET_MASKS|) }

  lemma EightStepsIsLinear()
    ensures forall a, b :: EightSteps(Plus(a, b)) == Plus(EightSteps(a), EightSteps(b))
  {
    forall a, b ensures EightSteps(Plus(a, b)) == Plus(EightSteps(a), EightSteps(b)) {
      StepsLinear(a, b, |OCTET_MASKS|);
    }
  }

  lemma LinearOnEight<T(!new)>(f: T -> T, plus: (T, T) -> T, x0: T, x1: T, x2: T, x3: T, x4: T, x5: T, x6: T, x7: T)
    requires forall a, b :: f(plus(a, b)) == plus(f(a), f(b))
    ensures f(plus(plus(plus(plus(plus(plus(plus(x0, x1), x2), x3), x4), x5), x6), x7))
         == plus(plus(plus(plus(plus(plus(plus(f(x0), f(x1)), f(x2)), f(x3)), f(x4)), f(x5)), f(x6)), f(x7))
  {
  }

  lemma EightStepsOfSum(x0: bv32, x1: bv32, x2: bv32, x3: bv32, x4: bv32, x5: bv32, x6: bv32, x7: bv32)
    ensures EightSteps(Sum(x0, x1, x2, x3, x4, x5, x6, x7))
         == Sum(EightSteps(x0), EightSteps(x1), EightSteps(x2), EightSteps(x3),
                EightSteps(x4), EightSteps(x5), EightSteps(x6), EightSteps(x7))
  {
    EightStepsIsLinear();
    LinearOnEight(EightSteps, Plus, x0, x1, x2, x3, x4, x5, x6, x7);
  }

  lemma GeneratorsAreByteSteps()
    ensures Steps(1, 8) == 0x77073096 && Steps(2, 8) == 0xee0e612c
    ensures Steps(4, 8) == 0x076dc419 && Steps(8, 8) == 0x0edb8832
    ensures Steps(16, 8) == 0x1db71064 && Steps(32, 8) == 0x3b6e20c8
    ensures Steps(64, 8) == 0x76dc4190 && Steps(128, 8) == 0xedb88320
    ensures Steps(0, 8) == 0
  {
  }

  lemma GeneratorsOfBits(i: bv8)
    ensures EightSteps(Bit(i, 1, 1)) == Bit(i, 1, 0x77073096) && EightSteps(Bit(i, 2, 2)) == Bit(i, 2, 0xee0e612c)
    ensures EightSteps(Bit(i, 4, 4)) == Bit(i, 4, 0x076dc419) && EightSteps(Bit(i, 8, 8)) == Bit(i, 8, 0x0edb8832)
    ensures EightSteps(Bit(i, 16, 16)) == Bit(i, 16, 0x1db71064) && EightSteps(Bit(i, 32, 32)) == Bit(i, 32, 0x3b6e20c8)
    ensures EightSteps(Bit(i, 64, 64)) == Bit(i, 64, 0x76dc4190) && EightSteps(Bit(i, 128, 128)) == Bit(i, 128, 0xedb88320)
  {
    GeneratorsAreByteSteps();
    assert |OCTET_MASKS| == 8;
  }

  /** The bits of an octet, as a register value. */
  function FromBits(i: bv8): bv32 {
    Sum(Bit(i, 1, 1), Bit(i, 2, 2), Bit(i, 4, 4), Bit(i, 8, 8),
        Bit(i, 16, 16), Bit(i, 32, 32), Bit(i, 64, 64), Bit(i, 128, 128))
  }

  lemma FromBitsExact(i: bv8)
    ensures FromBits(i) == i as bv32
  {
  }

  lemma CombineIsEightStepsOfBits(i: bv8)
    ensures Combine(i) == EightSteps(FromBits(i))
  {
    GeneratorsOfBits(i);
    EightStepsOfSum(Bit(i, 1, 1), Bit(i, 2, 2), Bit(i, 4, 4), Bit(i, 8, 8),
                    Bit(i, 16, 16), Bit(i, 32, 32), Bit(i, 64, 64), Bit(i, 128, 128));
  }

  lemma CombineIsEightSteps(i: bv8)
    ensures Combine(i) == EightSteps(i as bv32)
  {
    CombineIsEightStepsOfBits(i);
    FromBitsExact(i);
  }

  lemma EightEvenSteps(h: bv32)
    requires h & 0xff == 0
    ensures EightSteps(h) == h >> 8
  {
    assert |OCTET_MASKS| == 8;
    assert Steps(h, 8) == Step(Step(Step(Step(Step(Step(Step(Step(h))))))));
  }

  lemma TableIsEightSteps(i: bv8)
    ensures Table(i) == EightSteps(i as bv32)
  {
    CombineIsEightSteps(i);
  }

  lemma OctetParts(x: bv32)
    ensures x == Plus(x & 0xff, x & !0xff) && (x & !0xff) & 0xff == 0 && (x & !0xff) >> 8 == x >> 8
  {
  }

  lemma EightStepsOfParts(x: bv32, lo: bv32, hi: bv32, s: bv32)
    requires x == Plus(lo, hi) && EightSteps(hi) == s
    ensures EightSteps(x) == Plus(EightSteps(lo), s)
  {
    StepsLinear(lo, hi, |OCTET_MASKS|);
  }

  lemma EightStepsByOctet(x: bv32)
    ensures EightSteps(x) == Plus(EightSteps(x & 0xff), x >> 8)
  {
    OctetParts(x);
    EightEvenSteps(x & !0xff);
    EightStepsOfParts(x, x & 0xff, x & !0xff, x >> 8);
  }

  lemma LookUpStep(x: bv32, t: bv32)
    requires t == EightSteps(x & 0xff)
    ensures EightSteps(x) == t ^ (x >> 8)
  {
    EightStepsByOctet(x);
  }

  lemma XorOctet(crc: bv32, b: bv8)
    ensures (crc ^ b as bv32) >> 8 == crc >> 8
  {
  }

  // ---- One iteration of the loop

  method LookUp(x: bv32) returns (t: bv32)
    ensures t == EightSteps(x & 0xff)
  {
    var i := (x & 0xff) as bv8;
    assert i as bv32 == x & 0xff;
    TableIsEightSteps(i);
    t := Table(i);
  }

  method Advance(crc: bv32, b: bv8) returns (r: bv32)
    ensures r == EightSteps(Plus(crc, b as bv32))
  {
    ghost var x := crc ^ b as bv32;
    var t := LookUp(crc ^ b as bv32);
    r := t ^ (crc >> 8);
    LookUpStep(x, t);
    XorOctet(crc, b);
  }
}

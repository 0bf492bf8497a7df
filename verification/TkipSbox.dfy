/** The TKIP S-box (hostap08/wlantest/tkip.c). */
module TkipSbox {
  import opened Selection

  function Sbox00(i: bv8): bv16 {
    Select(i >> 3,
      Select(i, 0xC6A5, 0xF884, 0xEE99, 0xF68D, 0xFF0D, 0xD6BD, 0xDEB1, 0x9154),
      Select(i, 0x6050, 0x0203, 0xCEA9, 0x567D, 0xE719, 0xB562, 0x4DE6, 0xEC9A),
      Select(i, 0x8F45, 0x1F9D, 0x8940, 0xFA87, 0xEF15, 0xB2EB, 0x8EC9, 0xFB0B),
      Select(i, 0x41EC, 0xB367, 0x5FFD, 0x45EA, 0x23BF, 0x53F7, 0xE496, 0x9B5B),
      Select(i, 0x75C2, 0xE11C, 0x3DAE, 0x4C6A, 0x6C5A, 0x7E41, 0xF502, 0x834F),
      Select(i, 0x685C, 0x51F4, 0xD134, 0xF908, 0xE293, 0xAB73, 0x6253, 0x2A3F),
      Select(i, 0x080C, 0x9552, 0x4665, 0x9D5E, 0x3028, 0x37A1, 0x0A0F, 0x2FB5),
      Select(i, 0x0E09, 0x2436, 0x1B9B, 0xDF3D, 0xCD26, 0x4E69, 0x7FCD, 0xEA9F))
  }

  function Sbox40(i: bv8): bv16 {
    Select(i >> 3,
      Select(i, 0x121B, 0x1D9E, 0x5874, 0x342E, 0x362D, 0xDCB2, 0xB4EE, 0x5BFB),
      Select(i, 0xA4F6, 0x764D, 0xB761, 0x7DCE, 0x527B, 0xDD3E, 0x5E71, 0x1397),
      Select(i, 0xA6F5, 0xB968, 0x0000, 0xC12C, 0x4060, 0xE31F, 0x79C8, 0xB6ED),
      Select(i, 0xD4BE, 0x8D46, 0x67D9, 0x724B, 0x94DE, 0x98D4, 0xB0E8, 0x854A),
      Select(i, 0xBB6B, 0xC52A, 0x4FE5, 0xED16, 0x86C5, 0x9AD7, 0x6655, 0x1194),
      Select(i, 0x8ACF, 0xE910, 0x0406, 0xFE81, 0xA0F0, 0x7844, 0x25BA, 0x4BE3),
      Select(i, 0xA2F3, 0x5DFE, 0x80C0, 0x058A, 0x3FAD, 0x21BC, 0x7048, 0xF104),
      Select(i, 0x63DF, 0x77C1, 0xAF75, 0x4263, 0x2030, 0xE51A, 0xFD0E, 0xBF6D))
  }

  function Sbox80(i: bv8): bv16 {
    Select(i >> 3,
      Select(i, 0x814C, 0x1814, 0x2635, 0xC32F, 0xBEE1, 0x35A2, 0x88CC, 0x2E39),
      Select(i, 0x9357, 0x55F2, 0xFC82, 0x7A47, 0xC8AC, 0xBAE7, 0x322B, 0xE695),
      Select(i, 0xC0A0, 0x1998, 0x9ED1, 0xA37F, 0x4466, 0x547E, 0x3BAB, 0x0B83),
      Select(i, 0x8CCA, 0xC729, 0x6BD3, 0x283C, 0xA779, 0xBCE2, 0x161D, 0xAD76),
      Select(i, 0xDB3B, 0x6456, 0x744E, 0x141E, 0x92DB, 0x0C0A, 0x486C, 0xB8E4),
      Select(i, 0x9F5D, 0xBD6E, 0x43EF, 0xC4A6, 0x39A8, 0x31A4, 0xD337, 0xF28B),
      Select(i, 0xD532, 0x8B43, 0x6E59, 0xDAB7, 0x018C, 0xB164, 0x9CD2, 0x49E0),
      Select(i, 0xD8B4, 0xACFA, 0xF307, 0xCF25, 0xCAAF, 0xF48E, 0x47E9, 0x1018))
  }

  function Sboxc0(i: bv8): bv16 {
    Select(i >> 3,
      Select(i, 0x6FD5, 0xF088, 0x4A6F, 0x5C72, 0x3824, 0x57F1, 0x73C7, 0x9751),
      Select(i, 0xCB23, 0xA17C, 0xE89C, 0x3E21, 0x96DD, 0x61DC, 0x0D86, 0x0F85),
      Select(i, 0xE090, 0x7C42, 0x71C4, 0xCCAA, 0x90D8, 0x0605, 0xF701, 0x1C12),
      Select(i, 0xC2A3, 0x6A5F, 0xAEF9, 0x69D0, 0x1791, 0x9958, 0x3A27, 0x27B9),
      Select(i, 0xD938, 0xEB13, 0x2BB3, 0x2233, 0xD2BB, 0xA970, 0x0789, 0x33A7),
      Select(i, 0x2DB6, 0x3C22, 0x1592, 0xC920, 0x8749, 0xAAFF, 0x5078, 0xA57A),
      Select(i, 0x038F, 0x59F8, 0x0980, 0x1A17, 0x65DA, 0xD731, 0x84C6, 0xD0B8),
      Select(i, 0x82C3, 0x29B0, 0x5A77, 0x1E11, 0x7BCB, 0xA8FC, 0x6DD6, 0x2C3A))
  }

  function Sbox(i: bv8): bv16 {
    if i & 0xc0 == 0x00 then Sbox00(i)
    else if i & 0xc0 == 0x40 then Sbox40(i)
    else if i & 0xc0 == 0x80 then Sbox80(i)
    else Sboxc0(i)
  }

  /** _S_ */
  function S(v: bv16): bv16 {
    var t := Sbox((v >> 8) as bv8);
    Sbox((v & 0xff) as bv8) ^ ((t << 8) | (t >> 8))
  }

  // ---- The table is built from the AES S-box

  function HiOctet(w: bv16): bv8 { (w >> 8) as bv8 }
  function LoOctet(w: bv16): bv8 { (w & 0xff) as bv8 }

  /** Multiplication by x in GF(2^8), reduced by x^8 + x^4 + x^3 + x + 1. */
  function Double(a: bv8): bv8 {
    if a & 0x80 == 0 then a << 1 else (a << 1) ^ 0x1b
  }

  function Term(a: bv8, b: bv8, m: bv8): bv8 {
    if b & m == 0 then 0 else a
  }

  /** Multiplication in GF(2^8). */
  function Multiply(a: bv8, b: bv8): bv8 {
    var a1 := Double(a);
    var a2 := Double(a1);
    var a3 := Double(a2);
    var a4 := Double(a3);
    var a5 := Double(a4);
    var a6 := Double(a5);
    Term(a, b, 1) ^ Term(a1, b, 2) ^ Term(a2, b, 4) ^ Term(a3, b, 8)
    ^ Term(a4, b, 0x10) ^ Term(a5, b, 0x20) ^ Term(a6, b, 0x40) ^ Term(Double(a6), b, 0x80)
  }

  /** The inverse of the affine map of the AES S-box. */
  function UndoAffine(s: bv8): bv8 {
    ((s << 1) | (s >> 7)) ^ ((s << 3) | (s >> 5)) ^ ((s << 6) | (s >> 2)) ^ 0x05
  }

  /** s is the value of the AES S-box at i: the inverse of i in GF(2^8), or 0 for 0, under the affine map. */
  predicate IsAesSbox(i: bv8, s: bv8) {
    if i == 0 then UndoAffine(s) == 0 else Multiply(i, UndoAffine(s)) == 1
  }

  /** An entry holds twice and three times a value. */
  predicate HoldsMultiples(w: bv16, s: bv8) {
    HiOctet(w) == Double(s) && LoOctet(w) == Double(s) ^ s
  }

  /** The value of which an entry holds the multiples. */
  function BaseOf(w: bv16): bv8 { HiOctet(w) ^ LoOctet(w) }

  lemma Entries00(i: bv8)
    requires i & 0xc0 == 0x00
    ensures IsAesSbox(i, BaseOf(Sbox00(i))) && HoldsMultiples(Sbox00(i), BaseOf(Sbox00(i)))
  {
  }

  lemma Entries40(i: bv8)
    requires i & 0xc0 == 0x40
    ensures IsAesSbox(i, BaseOf(Sbox40(i))) && HoldsMultiples(Sbox40(i), BaseOf(Sbox40(i)))
  {
  }

  lemma Entries80(i: bv8)
    requires i & 0xc0 == 0x80
    ensures IsAesSbox(i, BaseOf(Sbox80(i))) && HoldsMultiples(Sbox80(i), BaseOf(Sbox80(i)))
  {
  }

  lemma Entriesc0(i: bv8)
    requires i & 0xc0 == 0xc0
    ensures IsAesSbox(i, BaseOf(Sboxc0(i))) && HoldsMultiples(Sboxc0(i), BaseOf(Sboxc0(i)))
  {
  }

  /** Every entry holds twice and three times the value of the AES S-box. */
  lemma SboxIsAes(i: bv8)
    ensures var s := BaseOf(Sbox(i)); IsAesSbox(i, s) && HoldsMultiples(Sbox(i), s)
  {
    if i & 0xc0 == 0x00 {
      Entries00(i);
    } else if i & 0xc0 == 0x40 {
      Entries40(i);
    } else if i & 0xc0 == 0x80 {
      Entries80(i);
    } else {
      Entriesc0(i);
    }
  }
}

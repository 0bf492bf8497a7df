/**
 The CCMP test vector of IEEE Std 802.11-2007, annex H.6.4.  AES enters by its values on the eight blocks that the
 vector needs, so the results hold for every cipher with these values.
 */
module CcmpVector {
  import opened Octets
  import opened Ieee80211
  import opened Ccm
  import opened Ccmp
  import opened CcmpFrames

  const HEADER: Octets :=
    [0x08, 0x48, 0xc3, 0x2c, 0x0f, 0xd2, 0xe1, 0x28, 0xa5, 0x7c, 0x50, 0x30, 0xf1, 0x84, 0x44, 0x08,
     0xab, 0xae, 0xa5, 0xb8, 0xfc, 0xba, 0x80, 0x33]
  const PN: Octets :=
    [0xb5, 0x03, 0x97, 0x76, 0xe7, 0x0c]
  const PAYLOAD: Octets :=
    [0xf8, 0xba, 0x1a, 0x55, 0xd0, 0x2f, 0x85, 0xae, 0x96, 0x7b, 0xb6, 0x2f, 0xb6, 0xcd, 0xa8, 0xeb,
     0x7e, 0x78, 0xa0, 0x50]
  const AAD: Octets :=
    [0x08, 0x40, 0x0f, 0xd2, 0xe1, 0x28, 0xa5, 0x7c, 0x50, 0x30, 0xf1, 0x84, 0x44, 0x08, 0xab, 0xae,
     0xa5, 0xb8, 0xfc, 0xba, 0x00, 0x00]
  const NONCE: Octets :=
    [0x00, 0x50, 0x30, 0xf1, 0x84, 0x44, 0x08, 0xb5, 0x03, 0x97, 0x76, 0xe7, 0x0c]
  const SEALED: Octets :=
    [0xf3, 0xd0, 0xa2, 0xfe, 0x9a, 0x3d, 0xbf, 0x23, 0x42, 0xa6, 0x43, 0xe4, 0x32, 0x46, 0xe8, 0x0c,
     0x3c, 0x04, 0xd0, 0x19]
  const MIC: Octets :=
    [0x78, 0x45, 0xce, 0x0b, 0x16, 0xf9, 0x76, 0x23]

  const X0_IN: Block :=
    [0x59, 0x00, 0x50, 0x30, 0xf1, 0x84, 0x44, 0x08, 0xb5, 0x03, 0x97, 0x76, 0xe7, 0x0c, 0x00, 0x14]
  const X0_OUT: Block :=
    [0xcd, 0x91, 0x6a, 0x7e, 0xb3, 0x71, 0xf0, 0xbb, 0xf4, 0x72, 0xe0, 0x44, 0x69, 0x3c, 0xb4, 0xd2]
  const X1_IN: Block :=
    [0xcd, 0x87, 0x62, 0x3e, 0xbc, 0xa3, 0x11, 0x93, 0x51, 0x0e, 0xb0, 0x74, 0x98, 0xb8, 0xf0, 0xda]
  const X1_OUT: Block :=
    [0x07, 0x2c, 0x4f, 0x12, 0x9d, 0x0f, 0xdc, 0x47, 0x72, 0xfc, 0x17, 0xa1, 0x4d, 0xbf, 0xc2, 0xfa]
  const X2_IN: Block :=
    [0xac, 0x82, 0xea, 0xaa, 0x61, 0xb5, 0xdc, 0x47, 0x72, 0xfc, 0x17, 0xa1, 0x4d, 0xbf, 0xc2, 0xfa]
  const X2_OUT: Block :=
    [0xe1, 0xea, 0x08, 0x2c, 0xcc, 0xf6, 0xe6, 0x9d, 0x96, 0x7d, 0x07, 0x12, 0x9d, 0x06, 0x12, 0x9e]
  const X3_IN: Block :=
    [0x19, 0x50, 0x12, 0x79, 0x1c, 0xd9, 0x63, 0x33, 0x00, 0x06, 0xb1, 0x3d, 0x2b, 0xcb, 0xba, 0x75]
  const X3_OUT: Block :=
    [0xbb, 0xc8, 0x78, 0xc9, 0xa4, 0x04, 0xed, 0xa7, 0xe4, 0xc7, 0xf4, 0x0b, 0xb6, 0xb3, 0x63, 0x93]
  const X4_IN: Block :=
    [0xc5, 0xb0, 0xd8, 0x99, 0xa4, 0x04, 0xed, 0xa7, 0xe4, 0xc7, 0xf4, 0x0b, 0xb6, 0xb3, 0x63, 0x93]
  const X4_OUT: Block :=
    [0xfc, 0xd1, 0x4a, 0xbd, 0x11, 0x30, 0x9b, 0x04, 0xb9, 0x05, 0x47, 0xa0, 0xcb, 0x9d, 0x32, 0x53]
  const A0_IN: Block :=
    [0x01, 0x00, 0x50, 0x30, 0xf1, 0x84, 0x44, 0x08, 0xb5, 0x03, 0x97, 0x76, 0xe7, 0x0c, 0x00, 0x00]
  const A0_OUT: Block :=
    [0x84, 0x94, 0x84, 0xb6, 0x07, 0xc9, 0xed, 0x27, 0xe7, 0x04, 0xa5, 0xf4, 0x4f, 0x68, 0xf8, 0x64]
  const A1_IN: Block :=
    [0x01, 0x00, 0x50, 0x30, 0xf1, 0x84, 0x44, 0x08, 0xb5, 0x03, 0x97, 0x76, 0xe7, 0x0c, 0x00, 0x01]
  const A1_OUT: Block :=
    [0x0b, 0x6a, 0xb8, 0xab, 0x4a, 0x12, 0x3a, 0x8d, 0xd4, 0xdd, 0xf5, 0xcb, 0x84, 0x8b, 0x40, 0xe7]
  const A2_IN: Block :=
    [0x01, 0x00, 0x50, 0x30, 0xf1, 0x84, 0x44, 0x08, 0xb5, 0x03, 0x97, 0x76, 0xe7, 0x0c, 0x00, 0x02]
  const A2_OUT: Block :=
    [0x42, 0x7c, 0x70, 0x49, 0xbf, 0x6b, 0x20, 0x7e, 0x86, 0x7b, 0xf7, 0x6e, 0xb3, 0x39, 0xc7, 0x28]

  /** The key of the vector. */
  predicate HasVectorValues(E: Cipher) {
    && E(X0_IN) == X0_OUT && E(X1_IN) == X1_OUT && E(X2_IN) == X2_OUT && E(X3_IN) == X3_OUT
    && E(X4_IN) == X4_OUT && E(A0_IN) == A0_OUT && E(A1_IN) == A1_OUT && E(A2_IN) == A2_OUT
  }

  lemma VectorHeader()
    ensures IsHeader(HEADER) && Aad(HEADER) == AAD && Nonce(HEADER, PN) == NONCE
  {
    assert HEADER[..2] == [0x08, 0x48];
    assert FrameControl(HEADER) == 0x4808;
    VectorFc();
    assert HEADER[4..22] == AAD[2..20] && AAD[..2] == [0x08, 0x40] && AAD[20..] == [0, 0];
    assert AAD == AAD[..2] + AAD[2..20] + AAD[20..];
    assert [0x00] + HEADER[10..16] + PN == NONCE;
    assert HEADER[22] & 0x0f == 0;
  }

  lemma VectorFc()
    ensures Type(0x4808) == TYPE_DATA && !HasQos(0x4808) && !HasAddr4(0x4808) && PutLe16(MaskFc(0x4808)) == [0x08, 0x40]
  {
  }

  lemma SmallNumbers()
    ensures BigEndian(0, 2) == [0, 0] && BigEndian(1, 2) == [0, 1] && BigEndian(2, 2) == [0, 2]
    ensures BigEndian(20, 2) == [0, 20] && BigEndian(22, 2) == [0, 22]
  {
  }

  lemma VectorB0()
    ensures B0(CCMP_PARAMS, NONCE, |PAYLOAD|) == X0_IN
  {
    SmallNumbers();
    B0Is(20, [0, 20]);
    VectorX0();
  }

  lemma VectorX0()
    ensures X0_IN == [0x59] + NONCE + [0, 20]
  {
  }

  lemma B0Is(n: nat, l: Octets)
    requires n < 65536 && BigEndian(n, 2) == l
    ensures B0(CCMP_PARAMS, NONCE, n) == [0x59] + NONCE + l
  {
  }

  lemma VectorCounters()
    ensures A(CCMP_PARAMS, NONCE, 0) == A0_IN && A(CCMP_PARAMS, NONCE, 1) == A1_IN && A(CCMP_PARAMS, NONCE, 2) == A2_IN
  {
    SmallNumbers();
    VectorCounter(0, [0, 0], A0_IN);
    VectorCounter1();
    VectorCounter2();
  }

  lemma VectorCounter1()
    ensures BigEndian(1, 2) == [0, 1] ==> A(CCMP_PARAMS, NONCE, 1) == A1_IN
  {
    VectorCounter(1, [0, 1], A1_IN);
  }

  lemma VectorCounter2()
    ensures BigEndian(2, 2) == [0, 2] ==> A(CCMP_PARAMS, NONCE, 2) == A2_IN
  {
    VectorCounter(2, [0, 2], A2_IN);
  }

  lemma VectorCounter(i: nat, n: Octets, a: Block)
    requires |n| == 2 && a[..14] == A0_IN[..14] && a[14..] == n
    ensures BigEndian(i, 2) == n ==> A(CCMP_PARAMS, NONCE, i) == a
  {
    CounterBlock(NONCE, i);
    assert A0_IN[..14] == [1] + NONCE;
    assert a == a[..14] + a[14..];
  }

  const B1: Block :=
    [0x00, 0x16, 0x08, 0x40, 0x0f, 0xd2, 0xe1, 0x28, 0xa5, 0x7c, 0x50, 0x30, 0xf1, 0x84, 0x44, 0x08]
  const B2: Block :=
    [0xab, 0xae, 0xa5, 0xb8, 0xfc, 0xba, 0x00, 0x00, 0x00, 0x00, 0x00, 0x00, 0x00, 0x00, 0x00, 0x00]
  const B3: Block :=
    [0xf8, 0xba, 0x1a, 0x55, 0xd0, 0x2f, 0x85, 0xae, 0x96, 0x7b, 0xb6, 0x2f, 0xb6, 0xcd, 0xa8, 0xeb]
  const B4: Block :=
    [0x7e, 0x78, 0xa0, 0x50, 0x00, 0x00, 0x00, 0x00, 0x00, 0x00, 0x00, 0x00, 0x00, 0x00, 0x00, 0x00]

  lemma VectorBlocks()
    ensures MacBlocks(AAD, PAYLOAD) == B1 + B2 + B3 + B4
  {
    VectorAadBlocks();
    VectorPayloadBlocks();
    SmallNumbers();
    assert (B1 + B2) + (B3 + B4) == B1 + B2 + B3 + B4;
  }

  lemma VectorAadBlocks()
    ensures Pad([0, 22] + AAD) == B1 + B2
  {
    var s: Octets := [0, 22] + AAD;
    PadIs(s, 8);
    assert s[..16] == B1;
    assert s[16..] + Zeros(8) == B2;
    assert s + Zeros(8) == s[..16] + (s[16..] + Zeros(8));
  }

  lemma VectorPayloadBlocks()
    ensures Pad(PAYLOAD) == B3 + B4
  {
    PadIs(PAYLOAD, 12);
  }

  lemma PadIs(s: Octets, n: nat)
    requires n < 16 && (|s| + n) % 16 == 0
    ensures Pad(s) == s + Zeros(n)
  {
  }

  lemma XorHalves(x: Block, y: Block)
    ensures Xor(x, y) == Xor(x[..8], y[..8]) + Xor(x[8..], y[8..])
  {
  }

  lemma MacOneMore(E: Cipher, x: Block, b: Block, rest: Octets)
    requires |rest| % 16 == 0
    ensures CbcMac(E, x, b + rest) == CbcMac(E, E(Xor(x, b)), rest)
  {
    assert (b + rest)[..16] == b && (b + rest)[16..] == rest;
  }

  lemma VectorXor1()
    ensures Xor(X0_OUT, B1) == X1_IN
  {
    XorHalves(X0_OUT, B1);
    assert Xor(X0_OUT[..8], B1[..8]) + Xor(X0_OUT[8..], B1[8..]) == X1_IN;
  }

  lemma VectorXor2()
    ensures Xor(X1_OUT, B2) == X2_IN
  {
    XorHalves(X1_OUT, B2);
    assert Xor(X1_OUT[..8], B2[..8]) + Xor(X1_OUT[8..], B2[8..]) == X2_IN;
  }

  lemma VectorXor3()
    ensures Xor(X2_OUT, B3) == X3_IN
  {
    XorHalves(X2_OUT, B3);
    assert Xor(X2_OUT[..8], B3[..8]) + Xor(X2_OUT[8..], B3[8..]) == X3_IN;
  }

  lemma VectorXor4()
    ensures Xor(X3_OUT, B4) == X4_IN
  {
    XorHalves(X3_OUT, B4);
    assert Xor(X3_OUT[..8], B4[..8]) + Xor(X3_OUT[8..], B4[8..]) == X4_IN;
  }

  lemma VectorTag(E: Cipher)
    requires HasVectorValues(E)
    ensures Tag(E, CCMP_PARAMS, NONCE, AAD, PAYLOAD) == X4_OUT[..8]
  {
    VectorB0();
    VectorBlocks();
    VectorXor1();
    VectorXor2();
    VectorXor3();
    VectorXor4();
    FourBlocks(E, X0_OUT, B1, B2, B3, B4, X1_OUT, X2_OUT, X3_OUT, X4_OUT);
  }

  lemma FourBlocks(E: Cipher, x0: Block, b1: Block, b2: Block, b3: Block, b4: Block,
      x1: Block, x2: Block, x3: Block, x4: Block)
    requires E(Xor(x0, b1)) == x1 && E(Xor(x1, b2)) == x2 && E(Xor(x2, b3)) == x3 && E(Xor(x3, b4)) == x4
    ensures CbcMac(E, x0, b1 + b2 + b3 + b4) == x4
  {
    assert b1 + b2 + b3 + b4 == b1 + (b2 + (b3 + (b4 + [])));
    MacOneMore(E, x0, b1, b2 + (b3 + (b4 + [])));
    MacOneMore(E, x1, b2, b3 + (b4 + []));
    MacOneMore(E, x2, b3, b4 + []);
    MacOneMore(E, x3, b4, []);
  }

  lemma StreamParts(S: nat -> Block, m: Octets)
    requires 16 <= |m| <= 32
    ensures XorStream(S, m) == Xor(S(1), m[..16]) + Xor(S(2)[..|m| - 16], m[16..])
  {
    StreamPart(S, m, 1, 16);
    StreamPart(S, m, 2, |m| - 16);
    var c := XorStream(S, m);
    assert c == c[..16] + c[16..];
    assert S(1)[..16] == S(1);
  }

  lemma VectorXorSealed()
    ensures Xor(A1_OUT, PAYLOAD[..16]) + Xor(A2_OUT[..4], PAYLOAD[16..]) == SEALED
  {
  }

  lemma VectorXorMic()
    ensures Xor(X4_OUT[..8], A0_OUT[..8]) == MIC
  {
  }

  lemma VectorEncrypt(E: Cipher)
    requires HasVectorValues(E)
    ensures Encrypt(E, CCMP_PARAMS, NONCE, AAD, PAYLOAD) == SEALED + MIC
  {
    VectorCounters();
    VectorTag(E);
    StreamParts(KeyBlocks(E, CCMP_PARAMS, NONCE), PAYLOAD);
    VectorXorSealed();
    VectorXorMic();
  }

  lemma VectorSentHeader()
    ensures SentHeader(HEADER + PAYLOAD, 24, PN, 0) == HEADER + [0x0c, 0xe7, 0x00, 0x20, 0x76, 0x97, 0x03, 0xb5]
  {
    assert (HEADER + PAYLOAD)[..24] == HEADER;
    assert HEADER[..2] == [0x08, 0x48];
    assert FrameControl(HEADER) | FC_ISWEP == 0x4808;
    assert PutLe16(0x4808) + HEADER[2..] == HEADER;
  }

  /** The enciphered frame is that of the standard. */
  lemma VectorEncapsulates(E: Cipher)
    requires HasVectorValues(E)
    ensures Encapsulate(E, HEADER + PAYLOAD, 24, PN, 0) ==
      HEADER + [0x0c, 0xe7, 0x00, 0x20, 0x76, 0x97, 0x03, 0xb5] + SEALED + MIC
  {
    VectorSentHeader();
    VectorSentFields();
    VectorEncrypt(E);
    assert (HEADER + PAYLOAD)[24..] == PAYLOAD;
  }

  lemma VectorSentFields()
    ensures var h := HEADER + [0x0c, 0xe7, 0x00, 0x20, 0x76, 0x97, 0x03, 0xb5];
      IsHeader(h) && Aad(h) == AAD && Nonce(h, PN) == NONCE
  {
    var h := HEADER + [0x0c, 0xe7, 0x00, 0x20, 0x76, 0x97, 0x03, 0xb5];
    VectorHeader();
    assert h[..2] == HEADER[..2] && h[4..22] == HEADER[4..22] && h[22] == HEADER[22] && h[10..16] == HEADER[10..16];
    VectorFc();
  }
}

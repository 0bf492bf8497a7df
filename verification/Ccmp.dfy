/**
 CCMP encapsulation and decapsulation (hostap08/wlantest/ccmp.c).  AES under the temporal key is the
 parameter E; allocation and key setup are taken to succeed.
 */
module Ccmp {
  import opened Octets
  import opened Ieee80211
  import opened Ccm
  import opened Wrappers

  const CCMP_PARAMS := Params(8, 2)

  // ---- Additional authentication data and nonce

  function MaskFc(fc: bv16): bv16 {
    var fc1 := if Type(fc) == TYPE_DATA then fc & !0x0070 else fc;
    var fc2 := if HasQos(fc) then fc1 & !FC_ORDER else fc1;
    (fc2 & !(FC_RETRY | FC_PWRMGT | FC_MOREDATA)) | FC_ISWEP
  }

  /** Section 8.3.3.3.2 of IEEE Std 802.11-2007. */
  function Aad(h: Octets): (r: Octets)
    requires IsHeader(h)
    ensures |r| == HdrLen(FrameControl(h)) - 2
  {
    var fc := FrameControl(h);
    PutLe16(MaskFc(fc)) + h[4..22] + [h[22] & 0x0f, 0]
      + (if HasAddr4(fc) then h[24..30] else [])
      + (if HasQos(fc) then [QosOctet(h) & 0x0f, 0] else [])
  }

  function NoncePriority(h: Octets): bv8
    requires IsHeader(h)
  {
    var fc := FrameControl(h);
    if HasQos(fc) then QosOctet(h) & 0x0f else if Type(fc) == TYPE_MGMT then 0x10 else 0
  }

  /** Section 8.3.3.3.3: priority, transmitter address and packet number, most significant octet first. */
  function Nonce(h: Octets, pn: Octets): (r: Octets)
    requires IsHeader(h) && |pn| == 6
    ensures |r| == 13
  {
    [NoncePriority(h)] + Addr2(h) + pn
  }

  /** The 8-octet CCMP header. */
  function Iv(pn: Octets, keyid: bv8): (r: Octets)
    requires |pn| == 6
    ensures |r| == 8
  {
    [pn[5], pn[4], 0, 0x20 | (keyid << 6), pn[3], pn[2], pn[1], pn[0]]
  }

  /** ccmp_get_pn */
  function GetPn(data: Octets): (pn: Octets)
    requires |data| >= 8
    ensures |pn| == 6
  {
    [data[7], data[6], data[5], data[4], data[1], data[0]]
  }

  lemma GetPnOfIv(pn: Octets, keyid: bv8, rest: Octets)
    requires |pn| == 6
    ensures GetPn(Iv(pn, keyid) + rest) == pn
  {
  }

  /** The header fields that CCMP does not protect, as a mask on the frame control field. */
  function MutableFc(fc: bv16): bv16 {
    FC_RETRY | FC_PWRMGT | FC_MOREDATA | FC_ISWEP
      | (if Type(fc) == TYPE_DATA then 0x0070 else 0)
      | (if HasQos(fc) then FC_ORDER else 0)
  }

  /**
   Two headers that agree outside the Duration field, the mutable frame control bits, the sequence
   number and all QoS Control bits but the TID.
   */
  predicate SameProtectedFields(g: Octets, h: Octets)
    requires IsHeader(g) && IsHeader(h)
  {
    var f, e := FrameControl(g), FrameControl(h);
    && (f ^ e) & !MutableFc(f) == 0
    && g[4..22] == h[4..22]
    && g[22] & 0x0f == h[22] & 0x0f
    && (HasAddr4(f) ==> g[24..30] == h[24..30])
    && (HasQos(f) ==> QosOctet(g) & 0x0f == QosOctet(h) & 0x0f)
  }

  lemma MaskedFcProtectsLayout(f: bv16, e: bv16)
    ensures (f ^ e) & !MutableFc(f) == 0 <==> MaskFc(f) == MaskFc(e)
    ensures MaskFc(f) == MaskFc(e) ==> Type(f) == Type(e) && HasAddr4(f) == HasAddr4(e) && HasQos(f) == HasQos(e)
  {
  }

  lemma PutLe16Injective(v: bv16, w: bv16)
    requires PutLe16(v) == PutLe16(w)
    ensures v == w
  {
    Le16Inverse(v, [0, 0]);
    Le16Inverse(w, [0, 0]);
  }

  lemma AadParts(h: Octets)
    requires IsHeader(h)
    ensures var fc, a := FrameControl(h), Aad(h);
      && a[..2] == PutLe16(MaskFc(fc))
      && a[2..20] == h[4..22]
      && a[20] == h[22] & 0x0f
      && a[21] == 0
      && (HasAddr4(fc) ==> a[22..28] == h[24..30])
      && (HasQos(fc) ==> a[|a| - 2] == QosOctet(h) & 0x0f && a[|a| - 1] == 0)
  {
  }

  lemma EqualAadProtects(g: Octets, h: Octets)
    requires IsHeader(g) && IsHeader(h) && Aad(g) == Aad(h)
    ensures SameProtectedFields(g, h)
  {
    AadParts(g);
    AadParts(h);
    var f, e := FrameControl(g), FrameControl(h);
    PutLe16Injective(MaskFc(f), MaskFc(e));
    MaskedFcProtectsLayout(f, e);
  }

  /** The cipher text of a frame is bound to exactly the protected header fields. */
  lemma AadBindsProtectedFields(g: Octets, h: Octets, pn: Octets)
    requires IsHeader(g) && IsHeader(h) && |pn| == 6
    ensures Aad(g) == Aad(h) <==> SameProtectedFields(g, h)
    ensures SameProtectedFields(g, h) ==> Nonce(g, pn) == Nonce(h, pn)
  {
    if Aad(g) == Aad(h) {
      EqualAadProtects(g, h);
    }
    if SameProtectedFields(g, h) {
      MaskedFcProtectsLayout(FrameControl(g), FrameControl(h));
      SubSlice(g, 4, 22, 6, 12);
      SubSlice(h, 4, 22, 6, 12);
    }
  }
}

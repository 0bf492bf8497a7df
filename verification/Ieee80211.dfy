/** The parts of an IEEE 802.11 MAC header that the ciphers look at (src/common/ieee802_11_defs.h). */
module Ieee80211 {
  import opened Octets

  type Addr = Octets

  predicate IsGroup(a: Addr) { a != [] && a[0] & 0x01 != 0 }

  const FC_TODS: bv16 := 0x0100
  const FC_FROMDS: bv16 := 0x0200
  const FC_RETRY: bv16 := 0x0800
  const FC_PWRMGT: bv16 := 0x1000
  const FC_MOREDATA: bv16 := 0x2000
  const FC_ISWEP: bv16 := 0x4000
  const FC_ORDER: bv16 := 0x8000

  const TYPE_MGMT: bv16 := 0
  const TYPE_DATA: bv16 := 2

  function Type(fc: bv16): bv16 { (fc & 0x000c) >> 2 }

  function Subtype(fc: bv16): bv16 { (fc & 0x00f0) >> 4 }

  predicate HasAddr4(fc: bv16) {
    fc & (FC_TODS | FC_FROMDS) == FC_TODS | FC_FROMDS
  }

  predicate HasQos(fc: bv16) {
    Type(fc) == TYPE_DATA && Subtype(fc) & 0x08 != 0
  }

  function HdrLen(fc: bv16): nat {
    24 + (if HasAddr4(fc) then 6 else 0) + (if HasQos(fc) then 2 else 0)
  }

  /** A header in memory: the octets from the frame control field on, at least as many as it describes. */
  predicate IsHeader(h: Octets) {
    |h| >= 24 && |h| >= HdrLen(FrameControl(h))
  }

  function FrameControl(h: Octets): bv16
    requires |h| >= 2
  {
    Le16(h[..2])
  }

  function Addr1(h: Octets): Octets requires |h| >= 24 { h[4..10] }
  function Addr2(h: Octets): Octets requires |h| >= 24 { h[10..16] }
  function Addr3(h: Octets): Octets requires |h| >= 24 { h[16..22] }

  /** The QoS Control octet with the TID. */
  function QosOctet(h: Octets): bv8
    requires IsHeader(h) && HasQos(FrameControl(h))
  {
    h[HdrLen(FrameControl(h)) - 2]
  }
}

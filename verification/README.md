# hostap 0.8 in Dafny

A model of four parts of hostap 0.8, with proofs of what they promise:

- the link ciphers of `wlantest`: CCMP, TKIP with Michael and its key mixing, WEP with RC4, the frame check
  sequence, and the packet numbers of injected frames;
- the trackers of `wlantest`: association state from management frames, and keys from EAPOL-Key frames;
- the scan result table of `wpa_supplicant`;
- the configured networks of `wpa_supplicant` with their priority index, the string fields of its configuration
  file, and the choice of frequencies for background scans.

`dafny verify dfyconfig.toml` checks the whole project.

## How it is written

Code that works in place on buffers or tables is a method or a class, proved against functions on values;
what the code promises over many calls is proved as lemmas about those functions. The modules come in groups:

| modules | about |
|---|---|
| `Wrappers`, `Octets`, `OctetNumbers`, `Ieee80211` | optional results, octet strings and numbers, MAC headers |
| `Lists`, `Modular`, `Iteration`, `Selection`, `Histories` | parts of lists, remainders, repeated functions, table look-up, facts over time |
| `Ccm`, `Ccmp`, `CcmpFrames`, `CcmpVector` | CCM of RFC 3610, its use in CCMP, the code on its buffers, and a test vector |
| `Crc32`, `CrcPolynomial`, `Fcs` | the table, division of polynomials, and the frame check sequence |
| `Rc4`, `Wep` | RC4 and WEP |
| `Word32`, `Michael`, `Word16`, `TkipMixing`, `TkipSbox`, `TkipVector`, `Tkip` | TKIP, with its key mixing written out |
| `PacketNumber`, `Inject` | octet counters and injection |
| `RxMgmt`, `RxMgmtRuns`, `RxMgmtHistory`, `RxMgmtProtected`, `RxMgmtTable` | management frames: one step on known facts, runs, states told by the frames, protected frames, and the tables |
| `RxEapol`, `RxEapolRuns`, `RxEapolLearning`, `RxEapolTable` | EAPOL-Key frames: one step, where keys come from, which keys are learned, and the tables |
| `BssModel`, `BssRuns`, `BssHistory`, `BssPresence`, `BssTable` | the scan result table: one step, invariants, history, presence, and the linked lists |
| `Priority`, `ConfigNetworks` | stable sorting by chains, and the linked networks |
| `ConfigLine`, `ConfigFile` | configuration lines, and the loops that print and read them |
| `Bgscan` | background scans |

What lies outside the modelled code is a parameter: AES (a function on blocks), AES-CMAC, the pseudo-random
function, the EAPOL-Key MIC, key unwrapping, the parsers of RSN, WPA and KDE elements, the clock, and what the
rest of `wpa_supplicant` has configured. Allocation succeeds, and ids and update indices do not wrap.

Notes on behaviour that a reader might not expect:

- Eviction from a full scan result table does not ask whether an entry is in use
  (`hostap08/wpa_supplicant/bss.c:127-142`), and the new entry itself can be the one that gives way.
- An entry of the scan result table is identified by its id, so `current_bss` is an id: reallocation may move
  the entry in memory (`hostap08/wpa_supplicant/bss.c:320-333`).
- The probe loop never sees index 0 at its test after it has wrapped
  (`hostap08/wpa_supplicant/bgscan_learn.c:249-268`). `Bgscan.LoopEndsIff` gives the exact condition under
  which it ends, and that condition is the precondition of `GetProbeFreq`.
- A configuration line of 256 octets or more before its newline is cut by the line buffer. `ConfigLine.LineRoundTrip`
  gives the exact condition for reading a value back. Fields without a stored length are C strings, so their
  values have no zero octet.
- A successful (Re)Association Response stores `aid & 0xc000` (`hostap08/wlantest/rx_mgmt.c:358`), and takes a
  station to State 3 from any state.
- `proberesp_seen` (`hostap08/wlantest/rx_mgmt.c:66`) is never set, so Beacons always count.
- Some Deauthentication and Disassociation frames are let through without proof of a key
  (`RxMgmtRuns.Unchecked`). A group-addressed frame is, if its MIC element names a key that is not known, such as
  key id 0 (`hostap08/wlantest/rx_mgmt.c:811-829`), or if it has none and the BSS does not advertise protection. A
  unicast frame is, if its three addresses differ: the handlers take it to be about its source
  (`hostap08/wlantest/rx_mgmt.c:198-201`), while the checks look at its destination
  (`hostap08/wlantest/rx_mgmt.c:957-960`). `RxMgmtRuns.LeavesState3Iff` gives the exact condition, and two lemmas
  exhibit such frames.
- Beacon and Probe Response frames are taken to have their fixed fields; the handlers do not check this.

## Model

| member | source | states |
|---|---|---|
| `Ccm.CbcMacConcat` | hostap08/wlantest/ccmp.c:169-201 | authenticating additional data and then the message is one CBC-MAC over their concatenated blocks |
| `Ccm.CtrInvolution` | hostap08/wlantest/ccmp.c:149-166 | the CTR transformation of section 2.3 of RFC 3610 undoes itself, for messages of any length |
| `Ccm.DecryptInvertsEncrypt` | hostap08/wlantest/ccmp.c:96-219 | section 2.5 of RFC 3610: a ciphertext decrypts to m if and only if it is the encryption of m, for every cipher, nonce, additional data and (M, L) |
| `Octets.BigEndianInjective` | hostap08/wlantest/ccmp.c:149-153 | lengths and counters that fit into n octets are told apart by them |
| `Ccm.StreamSeenIs` | hostap08/wlantest/ccmp.c:149-166 | block i of the key stream, as zeros reveal it, is the cipher of L - 1, the nonce and the counter i + 1 |
| `Ccm.StreamBlocksDistinct` | hostap08/wlantest/ccmp.c:149-166 | under an injective cipher, all blocks of key stream of a message of up to 256^L - 1 blocks are different |
| `Ccm.TagMaskIsNoStreamBlock` | hostap08/wlantest/ccmp.c:142-166 | and none of them is the block that masks the tag, which has counter 0 |
| `Ccm.CounterBlockIsNotB0` | hostap08/wlantest/ccmp.c:134-172 | no counter block is the first block that is authenticated |
| `Ccm.AuthenticatedInjective` | hostap08/wlantest/ccmp.c:169-200 | no two triples of nonce, additional data and message are authenticated as the same blocks |
| `Ccmp.GetPnOfIv` | hostap08/wlantest/ccmp.c:222-230 | the packet number read from a CCMP header is the one that was written to it |
| `Ccmp.AadBindsProtectedFields` | hostap08/wlantest/ccmp.c:23-82 | two headers have the same AAD and nonce if and only if they agree outside Duration, Retry, PwrMgt, MoreData, the sequence number and the masked subtype, Order and QoS bits |
| `CcmpFrames.XorAesBlock` | hostap08/wlantest/ccmp.c:85-93 | one block of the buffer is XORed in place and nothing else changes |
| `CcmpFrames.MaskAndPriority` | hostap08/wlantest/ccmp.c:30-53 | the masked frame control field and the priority octet of the nonce are those of sections 8.3.3.3.2 and 8.3.3.3.3 of IEEE Std 802.11-2007 |
| `CcmpFrames.StoreAad` | hostap08/wlantest/ccmp.c:54-73 | the buffer holds the AAD behind two free octets and is zero after it |
| `CcmpFrames.AadNonce` | hostap08/wlantest/ccmp.c:23-82 | both buffers end up holding exactly the AAD and the nonce of the header |
| `CcmpFrames.AadFillsTwoBlocks` | hostap08/wlantest/ccmp.c:178-185 | for every header the AAD with its length field fills exactly two blocks |
| `CcmpFrames.AuthenticateHeader` | hostap08/wlantest/ccmp.c:169-186 | the two in-place XOR and encrypt steps compute the CBC-MAC over B_0 and the padded AAD |
| `CcmpFrames.CtrLoop` | hostap08/wlantest/ccmp.c:149-166 | the block loop with its ragged last block computes CTR of RFC 3610 and writes nothing before its place in the buffer |
| `CcmpFrames.MacLoop` | hostap08/wlantest/ccmp.c:188-200 | the in-place loop with its ragged last block computes the CBC-MAC over the zero-padded message |
| `CcmpFrames.ComputeTag` | hostap08/wlantest/ccmp.c:169-200 | header and message together give the tag T of section 2.2 of RFC 3610 |
| `CcmpFrames.MaskWithS0` | hostap08/wlantest/ccmp.c:340-345 | U = T XOR S_0, and back |
| `CcmpFrames.CcmpDecrypt` | hostap08/wlantest/ccmp.c:96-219 | returns nothing if the frame is shorter than 16 octets or CCM rejects it, and otherwise the payload CCM returns; every write stays inside its buffer |
| `CcmpFrames.CcmpEncrypt` | hostap08/wlantest/ccmp.c:233-355 | returns nothing only if the header length is impossible, and otherwise the protected header, the CCMP header and the CCM encryption of the payload |
| `CcmpFrames.CcmpAcceptsExactlyEncryptions` | hostap08/wlantest/ccmp.c:96-219 | ccmp_decrypt returns m if and only if the rest of the frame is the CCM encryption of m under the nonce and AAD of the frame |
| `CcmpFrames.CcmpRoundTrip` | hostap08/wlantest/ccmp.c:96-355 | ccmp_decrypt of what ccmp_encrypt produced is the payload, also under any received header that agrees on the protected fields |
| `CcmpFrames.CcmpRoundTripUnchanged` | hostap08/wlantest/ccmp.c:96-355 | in particular the sent frame decrypts to its payload |
| `CcmpVector.VectorEncapsulates` | hostap08/wlantest/ccmp.c:233-355 | the CCMP test vector of annex H of IEEE Std 802.11-2007: for a cipher with the eight AES values of its key, the sent frame is that of the standard, octet by octet |
| `Crc32.Table` | hostap08/wlantest/crc32.c:19-77 | every table entry is the XOR of the generators selected by the bits of its index |
| `Crc32.TableIsEightSteps` | hostap08/wlantest/crc32.c:19-77 | every table entry is eight steps of the bitwise shift register |
| `Crc32.Advance` | hostap08/wlantest/crc32.c:85-88 | one table look-up advances the register by eight bitwise steps |
| `CrcPolynomial.AbsorbIsRemainder` | hostap08/wlantest/crc32.c:80-90 | bit-by-bit shifting is long division by the CRC-32 polynomial, for messages of any length |
| `CrcPolynomial.BurstChangesRegister` | hostap08/wlantest/crc32.c:80-90 | messages that differ only within 32 consecutive bits leave different registers |
| `Fcs.ComputeCrc32` | hostap08/wlantest/crc32.c:80-90 | the table-driven loop computes the complemented bitwise remainder, for frames of any length |
| `Fcs.ChecksumIsRemainder` | hostap08/wlantest/crc32.c:80-90 | the checksum is the complement of the remainder of the frame in long division, with the register preset to ones |
| `Fcs.CheckFcs` | hostap08/wlantest/process.c:267-272 | accepts exactly the frames whose last four octets are the checksum of the others |
| `Fcs.FcsValidIsFixedResidue` | hostap08/wlantest/process.c:267-272 | a frame is accepted if and only if it leaves one fixed register |
| `Fcs.FcsDetectsBursts` | hostap08/wlantest/process.c:267-272 | if one of two equally long frames is accepted and they differ only within 32 consecutive bits, the other is rejected |
| `Fcs.FcsDetectsFourOctets` | hostap08/wlantest/process.c:267-272 | the same for a difference within four consecutive octets anywhere in the frame |
| `Fcs.CheckValue` | hostap08/wlantest/crc32.c:80-90 | the digits 1 to 9 have the check value 0xcbf43926 of CRC-32 |
| `Rc4.AlwaysPermutation` | hostap08/wlantest/wep.c:22-48 | S is a permutation of 0..255 at every step of the schedule and of the generation |
| `Rc4.CryptInvolution` | hostap08/wlantest/wep.c:22-48 | applying the key stream twice gives the data back, for any key and length |
| `Rc4.SetupIsExchanges` | hostap08/wlantest/wep.c:29-36 | the key setup is 256 exchanges of two cells, from the state in which every cell holds its own number, with j grown by the cell and the key octet of each step |
| `Rc4.StreamIsGeneration` | hostap08/wlantest/wep.c:38-47 | octet k of the key stream is the cell at the sum of the two cells exchanged in step k + 1, and j grows by cell k + 1 |
| `Rc4.FinneyIsNeverReached` | hostap08/wlantest/wep.c:38-47 | from i = j = 0 the generator never has j = i + 1 on the cell that holds 1: the short cycles of RC4 are out of reach |
| `Wep.KeySetup` | hostap08/wlantest/wep.c:29-36 | the in-place loop computes the RC4 key schedule of the 16-octet key |
| `Wep.Generate` | hostap08/wlantest/wep.c:41-46 | one turn of the loop is one step of the RC4 generator, with its output octet |
| `Wep.WepCrypt` | hostap08/wlantest/wep.c:22-48 | the buffer ends up XORed with the RC4 key stream |
| `Wep.ExpansionIsExact` | hostap08/wlantest/wep.c:57-63 | all keys of a length have the same schedule as their 16-octet expansion if and only if the length divides 16 |
| `Wep.ExpandSchedulesLikeKey` | hostap08/wlantest/wep.c:57-63 | for IV and key of 8 or 16 octets the expansion gives the standard schedule |
| `Wep.ExpandKey` | hostap08/wlantest/wep.c:57-63 | the loop repeats the key cyclically to 16 octets |
| `Wep.TryWep` | hostap08/wlantest/wep.c:51-73 | deciphers into the buffer and accepts exactly if the integrity check value matches |
| `Wep.WepDecrypt` | hostap08/wlantest/wep.c:76-109 | returns the plaintext under the first listed key whose check value matches, and nothing if there is none |
| `Wep.DecapsulateAt` | hostap08/wlantest/wep.c:96-108 | if key n matches and no earlier key does, the result is what key n gives |
| `Wep.RefusedIff` | hostap08/wlantest/wep.c:76-109 | a frame is refused if and only if it is too short or no listed key matches |
| `Wep.WepRoundTrip` | hostap08/wlantest/wep.c:76-109 | a frame enciphered as section 8.2.1 of IEEE Std 802.11-2007 prescribes is recovered, for the key lengths add_wep admits |
| `Michael.MicIsBijection` | hostap08/wlantest/tkip.c:178-258 | for a fixed message exactly one key gives any given 64-bit code |
| `Michael.LastWord` | hostap08/wlantest/tkip.c:236-251 | the four-way switch builds the last word of the message padded with 0x5a and zeros |
| `Michael.MichaelMic` | hostap08/wlantest/tkip.c:209-258 | the word loop and its tail compute Michael over the message padded with 0x5a and 4 to 7 zeros, for every length |
| `Michael.MicIsMessageCode` | hostap08/wlantest/tkip.c:209-258 | the code of a frame is that of its header followed by its data |
| `Michael.EmptyVector` | hostap08/wlantest/tkip.c:178-258 | the first Michael test vector of annex H of IEEE Std 802.11-2007: the zero key and the empty message |
| `Michael.MichaelVector` | hostap08/wlantest/tkip.c:178-258 | its last test vector, for the message "Michael" |
| `TkipMixing.RunBijective` | hostap08/wlantest/tkip.c:124-131 | the mixing steps are a bijection of the state, whatever the S-box and key |
| `TkipMixing.Phase1Injective` | hostap08/wlantest/tkip.c:113-132 | different transmitters or high counters never share a phase 1 key |
| `TkipMixing.Phase2Injective` | hostap08/wlantest/tkip.c:135-175 | different phase 1 keys or low counters never share a phase 2 state |
| `TkipMixing.SeedInjective` | hostap08/wlantest/tkip.c:113-175 | under one temporal key no two pairs of transmitter and sequence counter share an RC4 key |
| `TkipSbox.SboxIsAes` | hostap08/wlantest/tkip.c:66-101 | for every index, the table entry is 2s and 3s for the AES S-box value s of the index: the octet whose affine preimage is its inverse in GF(2^8) |
| `TkipVector.Phase1Is` | hostap08/wlantest/tkip.c:113-132 | phase 1 is eight rounds of five statements, each adding the S-box of the word before it and a word of the key, on the words of counter and address |
| `TkipVector.Phase2Is` | hostap08/wlantest/tkip.c:135-163 | phase 2 is six such statements and six with a rotation instead of the S-box, on phase 1 and its last word plus the low counter |
| `TkipVector.VectorSeed` | hostap08/wlantest/tkip.c:113-175 | the first key mixing test vector of annex H of IEEE Std 802.11-2007: its phase 1 key and its RC4 key |
| `Tkip.MixingPhase1` | hostap08/wlantest/tkip.c:113-132 | the in-place rounds compute phase 1 |
| `Tkip.MixingPhase2` | hostap08/wlantest/tkip.c:135-175 | the in-place steps compute phase 2 and the 16-octet RC4 key |
| `Tkip.MichaelMicHdr` | hostap08/wlantest/tkip.c:261-294 | the header that Michael covers holds the destination, the source and the priority, for all four address layouts |
| `Tkip.AddressTable` | hostap08/wlantest/tkip.c:261-353 | destination, source and Michael key for each of the four values of the direction bits |
| `Tkip.SeedBeginsWithIv` | hostap08/wlantest/tkip.c:163-167 | the RC4 key begins with the three octets of the IV that are sent in the clear |
| `Tkip.OpenExactly` | hostap08/wlantest/tkip.c:325-367 | a body opens to m if and only if it is payload m with its Michael code and CRC, enciphered |
| `Tkip.TkipDecrypt` | hostap08/wlantest/tkip.c:297-368 | returns the payload exactly when the frame is long enough and both checks pass |
| `Tkip.TkipRoundTrip` | hostap08/wlantest/tkip.c:297-368 | tkip_decrypt recovers the payload of every frame of the reference encapsulation, for every key, counter, address layout and length |
| `Tkip.TkipAcceptsExactlySealed` | hostap08/wlantest/tkip.c:297-368 | tkip_decrypt returns m if and only if the rest of the frame is m sealed for the counter in its IV |
| `Tkip.PnIsTsc` | hostap08/wlantest/tkip.c:371-379 | the packet number read from a frame determines the sequence counter used to decipher it, and back |
| `Tkip.PnOfIv` | hostap08/wlantest/tkip.c:371-379 | the packet number read from a frame is the one that its IV and Extended IV were written with, most significant octet first |
| `PacketNumber.IncValue` | hostap08/src/utils/common.c:162-171 | the octet counter goes to the next number, or from the greatest back to zero |
| `PacketNumber.IncTimesDistinct` | hostap08/src/utils/common.c:162-171 | fewer than 256^n increments of an n-octet counter never repeat a value |
| `PacketNumber.IncByteArray` | hostap08/src/utils/common.c:162-171 | the in-place loop with its carry increments the counter |
| `Inject.TidIsNoncePriority` | hostap08/wlantest/inject.c:262-273 | the TID that selects the counter is the priority octet of the nonce in the frame as it is sent |
| `Inject.SameNonceSameCounter` | hostap08/wlantest/inject.c:198-310 | two frames under one key that share a nonce took their packet numbers from one counter |
| `Inject.InjectedNoncesDistinct` | hostap08/wlantest/inject.c:150-310 | over any run of injections with fixed keys, no two frames sent under one key share a nonce, if the run uses the counter fewer than 2^48 times |
| `Inject.Injector.ChooseKey` | hostap08/wlantest/inject.c:218-282 | the key, direction and TID are chosen from the frame, the stations and the direct links |
| `Inject.DirectIff` | hostap08/wlantest/inject.c:218-246 | a direct link is used if and only if the frame is a data frame between two stations of the BSS that it names, and then it is the first link between them, in the direction of its initiator |
| `Inject.PairwiseIff` | hostap08/wlantest/inject.c:218-282 | the key of a station is used if and only if it is known and the station is the transmitter of a data frame between stations without a link, or else the one asked for; the direction is that of the transmitter |
| `Inject.GroupIff` | hostap08/wlantest/inject.c:150-195 | the group key is used if and only if it is known, no station is asked for, and the frame is neither a management frame nor between stations |
| `Inject.HeaderLengths` | hostap08/wlantest/inject.c:262-272 | the header has a fourth address with both direction bits, and a QoS field with the QoS data subtypes |
| `Inject.Injector.NextPn` | hostap08/wlantest/inject.c:283 | one counter is incremented and no other |
| `Inject.FrameCarriesNonce` | hostap08/wlantest/inject.c:286-298 | the nonce that a receiver computes from the header of a sent frame is the one it was sealed with |
| `Inject.SentFrameOpens` | hostap08/wlantest/inject.c:286-310 | the receiver gets the packet number, the header and the payload of what was injected, under the same key |
| `Inject.Injector.InjectProt` | hostap08/wlantest/inject.c:198-310 | the counters move on by one use of the chosen counter, and the frame is the CCMP encapsulation with the new packet number, or nothing for TKIP or without a key |
| `Inject.Injector.InjectAll` | hostap08/wlantest/inject.c:198-310 | over any sequence of requests, the headers of the frames that are sent carry the nonces that the run says, and no two of them under one key are equal, if the counter is used fewer than 2^48 times |
| `RxMgmtRuns.RejectedIsIgnored` | hostap08/wlantest/rx_mgmt.c:187-246 | a Deauthentication or Disassociation frame judged invalid changes nothing known about any address, not even a packet number |
| `RxMgmtRuns.RejectedFramesDoNotMatter` | hostap08/wlantest/rx_mgmt.c:977-1071 | over any sequence of frames the final state of every station and BSS is that after deleting every Deauthentication and Disassociation frame judged invalid |
| `RxMgmtRuns.AcceptedAreAllValid` | hostap08/wlantest/rx_mgmt.c:977-1071 | in the shortened sequence no such frame is judged invalid |
| `RxMgmtRuns.ValidMeans` | hostap08/wlantest/rx_mgmt.c:773-974 | for a frame aimed at a protected station in State 3, being judged valid is being proven by BIP or CCMP under the key of that station, or not being checked for that station |
| `RxMgmtRuns.LeavesState3Iff` | hostap08/wlantest/rx_mgmt.c:773-1071 | a station in State 3 with protected management frames leaves it if and only if a long enough Deauthentication or Disassociation frame is aimed at it that is so proven or unchecked |
| `RxMgmtRuns.UnknownKeyIdIsUnchecked` | hostap08/wlantest/rx_mgmt.c:811-821 | a broadcast frame whose MIC element has key id 0 is unchecked: it takes the station out of State 3 whatever its MIC, although the BSS protects management frames and an IGTK is known |
| `RxMgmtRuns.OtherDestinationIsUnchecked` | hostap08/wlantest/rx_mgmt.c:938-974 | an unprotected frame from the station to another, unprotected station does so too |
| `RxMgmtRuns.PeersAgree` | hostap08/wlantest/rx_mgmt.c:957-960 | the checks and the handlers take a frame to be about the same station if and only if one of its addresses is the BSSID or both are the same |
| `RxMgmtHistory.KindByOctet` | hostap08/wlantest/rx_mgmt.c:1035-1066 | the handler of a frame is chosen by the high half of its first octet |
| `RxMgmtHistory.StateAfter` | hostap08/wlantest/rx_mgmt.c:977-1071 | the state of every station after any frame, from facts about the frame: State 1 by a valid, long enough Deauthentication about it; State 2 from State 3 by such a Disassociation, and from State 1 by a successful open authentication; State 3 by a successful (Re)Association Response; otherwise as before |
| `RxMgmtHistory.AssociatedIff` | hostap08/wlantest/rx_mgmt.c:977-1071 | over any run, a station is in State 3 if and only if it was at the start or was associated, and no valid Deauthentication or Disassociation about it has come since |
| `RxMgmtHistory.AuthenticatedIff` | hostap08/wlantest/rx_mgmt.c:977-1071 | over any run, a station is beyond State 1 if and only if it was at the start or was authenticated or associated, and no valid Deauthentication about it has come since |
| `RxMgmtHistory.StationAfter` | hostap08/wlantest/rx_mgmt.c:111-500 | the key of a station never changes; its association id changes by a successful (Re)Association Response only, and its request by a (Re)Association Request that can be parsed only |
| `RxMgmtHistory.UsesAfterRequest` | hostap08/wlantest/sta.c:70-131 | after a request the station uses its RSN element if the BSS has one too, else its WPA element if the BSS has one too, else none, or WEP if it asked for privacy |
| `RxMgmtHistory.LinkAfter` | hostap08/wlantest/rx_mgmt.c:173-246 | a direct link is up after a frame if and only if it was up and neither end has been named by a valid, long enough Deauthentication or Disassociation |
| `RxMgmtHistory.OnlyAnnouncementsInform` | hostap08/wlantest/rx_mgmt.c:56-108 | what a BSS advertises changes by its own Beacons and Probe Responses only |
| `RxMgmtHistory.RunKeepsCurrent` | hostap08/wlantest/bss.c:137-253 | over any run the capabilities and ciphers of a BSS are those of the elements last seen |
| `RxMgmtProtected.SealedIsAccepted` | hostap08/wlantest/rx_mgmt.c:858-935 | a Deauthentication, Disassociation or Action frame protected with CCMP under the known key of the station is valid, read in the clear, and its packet number recorded for its direction |
| `RxMgmtProtected.SealedDeauthenticates` | hostap08/wlantest/rx_mgmt.c:187-246 | such a Deauthentication takes the station to State 1 |
| `RxMgmtProtected.DecryptedExactly` | hostap08/wlantest/rx_mgmt.c:858-935 | the frame is read as m if and only if the key is known, the frame is long enough and its body is the CCM encryption of m |
| `RxMgmtProtected.BipSealedIsAccepted` | hostap08/wlantest/rx_mgmt.c:773-855 | a group-addressed frame with the MIC element of a known IGTK verifies, and its packet number is then kept with that key |
| `RxMgmtProtected.BipGoodIff` | hostap08/wlantest/rx_mgmt.c:735-855 | BIP accepts exactly the frames that end in the MIC element of their own content under the key that they name |
| `RxMgmtProtected.BipSealedDeauthenticates` | hostap08/wlantest/rx_mgmt.c:159-246 | a broadcast Deauthentication so protected takes every station of the BSS to State 1 |
| `RxMgmtProtected.UnprotectedRefusedIff` | hostap08/wlantest/rx_mgmt.c:938-974 | an unprotected frame to or from a station is refused if and only if its capabilities have bit 7 set and it is in State 3, or the frame is an Action frame that is not public |
| `RxMgmtProtected.InjectBip` | hostap08/wlantest/inject.c:87-147 | the injected frame carries the MIC element with the next packet number, which is kept; without a key nothing is sent |
| `RxMgmtProtected.InjectedIsAccepted` | hostap08/wlantest/inject.c:87-147 | what is injected is accepted on reception, which leaves the same packet number with the key |
| `RxMgmtTable.Wlantest.BssGet` | hostap08/wlantest/bss.c:38-60 | finding or creating a BSS entry changes nothing known about any address |
| `RxMgmtTable.Wlantest.StaGet` | hostap08/wlantest/sta.c:37-59 | finding or creating a station entry changes nothing known about any address |
| `RxMgmtTable.Wlantest.RxAuth` | hostap08/wlantest/rx_mgmt.c:111-156 | an accepted open authentication takes a station from State 1 to State 2, and nothing else changes |
| `RxMgmtTable.Wlantest.DeauthAllStas` | hostap08/wlantest/rx_mgmt.c:159-170 | every station of the BSS, in the table or not, is then in State 1 |
| `RxMgmtTable.Wlantest.DisassocAllStas` | hostap08/wlantest/rx_mgmt.c:503-514 | every station of the BSS in State 3 is then in State 2 |
| `RxMgmtTable.Wlantest.TdlsLinkDown` | hostap08/wlantest/rx_mgmt.c:173-184 | exactly the direct links of the station are down |
| `RxMgmtTable.Wlantest.RxDeauth` | hostap08/wlantest/rx_mgmt.c:187-246 | every station that a valid, long enough frame is about is then in State 1, with its direct links down; no other frame has an effect |
| `RxMgmtTable.Wlantest.RxDisassoc` | hostap08/wlantest/rx_mgmt.c:517-583 | likewise, and stations below State 3 keep their state |
| `RxMgmtTable.Wlantest.RxAssocReq` | hostap08/wlantest/rx_mgmt.c:249-297 | the fixed fields and elements of the request are stored, and the station is updated from them, if the elements can be parsed |
| `RxMgmtTable.Wlantest.StaUpdateAssoc` | hostap08/wlantest/sta.c:70-131 | the element, protocols, pairwise cipher, key management and capabilities of the station are those of the RSN or else the WPA element, if its BSS has such an element too; otherwise none, or WEP with privacy |
| `RxMgmtTable.Wlantest.RxAssocResp` | hostap08/wlantest/rx_mgmt.c:300-371 | a successful response takes the station to State 3 from any state |
| `RxMgmtTable.Wlantest.BssUpdate` | hostap08/wlantest/bss.c:137-253 | the SSID, elements, protocols, ciphers, key management and capabilities after a Beacon or Probe Response, parsed again only if something changed |
| `RxMgmtTable.Wlantest.ParseElements` | hostap08/wlantest/bss.c:209-253 | both elements are added up, the RSN capabilities win, and the management group cipher needs RSN with protected management frames |
| `RxMgmtTable.Wlantest.RunBipCheck` | hostap08/wlantest/rx_mgmt.c:773-855 | the verdict on a group-addressed frame, and the packet number of a frame whose MIC verifies |
| `RxMgmtTable.Wlantest.MgmtCcmpDecrypt` | hostap08/wlantest/rx_mgmt.c:858-935 | the frame in the clear, and its packet number recorded exactly if CCMP accepts it |
| `RxMgmtTable.Wlantest.CheckMgmtCcmp` | hostap08/wlantest/rx_mgmt.c:938-974 | an unprotected frame is refused exactly if the station protects management frames and is in State 3 or the frame is an Action frame |
| `RxMgmtTable.Wlantest.Receive` | hostap08/wlantest/rx_mgmt.c:977-1071 | the table after a frame says about every address what the step on known facts says, and the state of every station is the one told from facts about the frame |
| `RxMgmtTable.Wlantest.ReceiveAll` | hostap08/wlantest/rx_mgmt.c:977-1071 | the table after any sequence of frames is that of the sequence without the frames judged invalid |
| `RxEapolRuns.DeriveProven` | hostap08/wlantest/rx_eapol.c:98-148 | a key that deriving sets comes from a listed PMK and the recorded nonces, and confirms the frame at hand |
| `RxEapolRuns.LearnProven` | hostap08/wlantest/rx_eapol.c:310-391 | group keys are learned only from the Key Data at hand |
| `RxEapolRuns.Pairwise3Proven` | hostap08/wlantest/rx_eapol.c:394-541 | message 3/4 keeps the origin of every key, also when it makes the pairwise key be computed again |
| `RxEapolRuns.Group1Proven` | hostap08/wlantest/rx_eapol.c:585-704 | the group message keeps the origin of every key, in RSN and in WPA |
| `RxEapolRuns.NoncesAreRecorded` | hostap08/wlantest/rx_eapol.c:67-236 | after any run a station holds the ANonce of the last message 1/4 or 3/4 and the SNonce of the last message 2/4 with its access point, or zeros |
| `RxEapolRuns.KeysAreProven` | hostap08/wlantest/rx_eapol.c:39-933 | in every reachable state each PTK is the PRF of a listed PMK with the nonces recorded at the frame whose MIC its KCK verified, and each GTK and IGTK with its packet number came from a frame whose MIC verified under such a PTK |
| `RxEapolRuns.LearnKeepsOthers` | hostap08/wlantest/rx_eapol.c:310-391 | group keys with other ids than those in the Key Data stay as they are |
| `RxEapolRuns.PnIsCounter` | hostap08/wlantest/rx_eapol.c:346-351 | the stored packet number, most significant octet first, is the value of the first six octets of the received counter, least significant first |
| `RxEapolLearning.FieldsAreRead` | hostap08/wlantest/rx_eapol.c:748-790 | every field of a frame that is composed in the order of IEEE Std 802.11-2007 is read back, also with the MIC set to zero |
| `RxEapolLearning.MessageByInfo` | hostap08/wlantest/rx_eapol.c:877-933 | which message a frame is, from the bits of the Key Information and the length of the Key Data, in both directions |
| `RxEapolLearning.SenderByAck` | hostap08/wlantest/rx_eapol.c:877-933 | the access point is the source exactly of the messages that ask for an answer |
| `RxEapolLearning.DeriveIs` | hostap08/wlantest/rx_eapol.c:98-148 | the first PMK of the list whose key confirms the frame sets the key; if there is none, nothing changes |
| `RxEapolLearning.Pairwise2Learns` | hostap08/wlantest/rx_eapol.c:151-236 | message 2/4 confirmed by a listed PMK leaves the station with its nonce and with the key of the first such PMK |
| `RxEapolLearning.Pairwise3Rederives` | hostap08/wlantest/rx_eapol.c:394-450 | message 3/4 keeps the key if it repeats the nonce of message 1/4, and otherwise computes it as message 2/4 does |
| `RxEapolLearning.Pairwise3Learns` | hostap08/wlantest/rx_eapol.c:394-541 | every GTK of 0 to 32 octets and every IGTK that message 3/4 reveals under the key of the station is stored under its id with its counter and becomes current, and nothing else |
| `RxEapolLearning.Group1Learns` | hostap08/wlantest/rx_eapol.c:585-704 | the same for group message 1/2 in RSN, which must be encrypted |
| `RxEapolLearning.Group1LearnsBare` | hostap08/wlantest/rx_eapol.c:678-703 | in WPA the decrypted Key Data of 16 or 32 octets is the key for the id in the Key Information |
| `RxEapolLearning.OthersLearnNothing` | hostap08/wlantest/rx_eapol.c:748-933 | no other message changes a group key, and none changes another BSS |
| `RxEapolLearning.HandshakeIsFollowed` | hostap08/wlantest/rx_eapol.c:67-541 | a 4-Way Handshake under a listed PMK leaves the station with its key and the BSS with every group key that message 3/4 reveals |
| `RxEapolTable.KeyTracker.CheckMic` | hostap08/wlantest/rx_eapol.c:39-64 | accepts exactly if the MIC over the frame with a zero MIC field is the received one |
| `RxEapolTable.KeyTracker.DerivePtk` | hostap08/wlantest/rx_eapol.c:128-148 | the first PMK that confirms the frame sets the key, those of the BSS before the global ones; otherwise the key stays |
| `RxEapolTable.KeyTracker.LearnKdeKeys` | hostap08/wlantest/rx_eapol.c:310-391 | the GTK and IGTK of valid length and id are stored with their packet numbers in the order of the counters |
| `RxEapolTable.KeyTracker.RxPairwise3` | hostap08/wlantest/rx_eapol.c:394-541 | the nonce is recorded, and the group keys afterwards are those before and exactly the ones that the frame reveals under the key that the station then holds |
| `RxEapolTable.KeyTracker.RxGroup1` | hostap08/wlantest/rx_eapol.c:585-704 | the effect of group message 1/2; in RSN exactly the group keys that it reveals are learned, in WPA the bare key |
| `RxEapolTable.KeyTracker.ReceiveFrame` | hostap08/wlantest/rx_eapol.c:748-933 | the tables after a frame from a source to a destination |
| `RxEapolTable.KeyTracker.ReceiveProven` | hostap08/wlantest/rx_eapol.c:748-933 | after any history, the frame leaves every key in the tables with its origin |
| `BssModel.StampIsDifference` | hostap08/wpa_supplicant/bss.c:84-92 | the borrow keeps microseconds normalised and the time exactly age milliseconds before now |
| `BssModel.BeforeIsLess` | hostap08/wpa_supplicant/bss.c:470 | comparing seconds and then microseconds is comparing times |
| `BssModel.ElementsOfEncoding` | hostap08/wpa_supplicant/scan.c:580-596 | parsing recovers any list of information elements |
| `BssRuns.StepInv` | hostap08/wpa_supplicant/bss.c:44-512 | every operation keeps ids and (BSSID, SSID) pairs unique, the list in the order of last_update_idx, and the elements inside their allocation |
| `BssRuns.RunInv` | hostap08/wpa_supplicant/bss.c:44-512 | the same after any run of operations |
| `BssHistory.RefreshStores` | hostap08/wpa_supplicant/bss.c:303-337 | after an update, in place or reallocated, the entry holds exactly the elements of the result |
| `BssHistory.MissCountIsHistory` | hostap08/wpa_supplicant/bss.c:340-452 | over any run, scan_miss_count is the number of new scans that covered the entry while it was not in use and did not see it since its last sighting, and the contents are those of that sighting |
| `BssHistory.CountsBelowLimit` | hostap08/wpa_supplicant/bss.c:430-452 | with a fixed positive limit every count stays below it |
| `BssHistory.ExpiryIsExact` | hostap08/wpa_supplicant/bss.c:430-452 | with a fixed positive limit the end of an update removes exactly the entries whose number of misses has reached the limit |
| `BssHistory.EvictsOldest` | hostap08/wpa_supplicant/bss.c:96-142 | the entry that gives way is the least recently updated one that matches no configured network, or the least recently updated of all if every entry matches one |
| `BssHistory.StepSize` | hostap08/wpa_supplicant/bss.c:145-172 | no operation takes the table above the limit, nor a larger table any higher |
| `BssHistory.RunWithinLimit` | hostap08/wpa_supplicant/bss.c:145-172 | over any run with a limit of at most max the table never has more than max entries |
| `BssHistory.FlushOldSpares` | hostap08/wpa_supplicant/bss.c:455-477 | flushing by age never removes a fresh entry or one in use, whatever the order of the list |
| `BssHistory.FlushOldIsFullScan` | hostap08/wpa_supplicant/bss.c:455-477 | stopping early removes what a full scan removes if and only if no old entry follows a fresh one that is not in use |
| `BssHistory.RunInTimeOrder` | hostap08/wpa_supplicant/bss.c:71-93 | the list stays ordered by last_update over every run whose results arrive with non-decreasing (now minus age) |
| `BssHistory.FlushByAgeInRun` | hostap08/wpa_supplicant/bss.c:455-477 | in every such run flushing by age removes exactly what a full scan would |
| `BssPresence.AcceptsIff` | hostap08/wpa_supplicant/bss.c:362-378 | a result is stored under an SSID if and only if that is its first SSID element, of at most 32 octets, and it is not the wildcard of a P2P device |
| `BssPresence.SightAdds` | hostap08/wpa_supplicant/bss.c:145-172 | a BSS that is not in a table with room is added at its end, with the next id and the contents of the result |
| `BssPresence.SightEvicts` | hostap08/wpa_supplicant/bss.c:145-172 | in a full table one position gives way, the first that matches no configured network or else the first, the new one included |
| `BssPresence.SightUpdates` | hostap08/wpa_supplicant/bss.c:303-337 | a BSS in the table keeps its id and moves to the end with the contents of the result |
| `BssPresence.PresenceAfter` | hostap08/wpa_supplicant/bss.c:44-512 | after any operation a BSS is in the table if and only if it was or is reported, and it does not give way, expire, age out or get flushed |
| `BssPresence.PresentIff` | hostap08/wpa_supplicant/bss.c:44-512 | over any run a BSS is in the table if and only if an accepted result has reported it and since then it has not been evicted, expired or flushed |
| `BssPresence.SightedIsStored` | hostap08/wpa_supplicant/bss.c:356-386 | a reported BSS is then in the table with what the result says, unless it gives way itself |
| `BssPresence.OthersStay` | hostap08/wpa_supplicant/bss.c:356-386 | every other entry stays as it is, unless it gives way |
| `BssTable.ScanGetIe` | hostap08/wpa_supplicant/scan.c:580-596 | the loop finds the first element with the id |
| `BssTable.AcceptedSsid` | hostap08/wpa_supplicant/bss.c:362-378 | which results are stored, and under which SSID |
| `BssTable.IsKnown` | hostap08/wpa_supplicant/bss.c:96-109 | whether some configured, non-empty SSID is that of the entry |
| `BssTable.IncludedInScan` | hostap08/wpa_supplicant/bss.c:389-427 | whether the frequency and the SSID of the entry were scanned |
| `BssTable.BssTable.Get` | hostap08/wpa_supplicant/bss.c:57-68 | the entry with the BSSID and SSID, if there is one |
| `BssTable.BssTable.GetBssid` | hostap08/wpa_supplicant/bss.c:522-531 | a most recently updated entry with the BSSID, if there is one |
| `BssTable.BssTable.GetId` | hostap08/wpa_supplicant/bss.c:534-542 | the entry with the id, if there is one |
| `BssTable.BssTable.Remove` | hostap08/wpa_supplicant/bss.c:44-54 | the entry leaves both lists and the count, and both lists still hold the same entries |
| `BssTable.BssTable.EvictOldest` | hostap08/wpa_supplicant/bss.c:112-142 | exactly the victim is removed |
| `BssTable.BssTable.Insert` | hostap08/wpa_supplicant/bss.c:145-172 | the new entry is at the end of both lists, and one entry gives way if there are too many |
| `BssTable.BssTable.Renew` | hostap08/wpa_supplicant/bss.c:303-337 | the entry moves to the end of the update list and keeps its place in the id list, also when it is reallocated |
| `BssTable.BssTable.UpdateStart` | hostap08/wpa_supplicant/bss.c:348-353 | the update index goes up and nothing else changes |
| `BssTable.BssTable.UpdateScanRes` | hostap08/wpa_supplicant/bss.c:356-386 | the table then holds what it held and the reported BSS, with the contents of the result, without the one entry that gives way if it was full; all other entries are as they were |
| `BssTable.BssTable.UpdateEnd` | hostap08/wpa_supplicant/bss.c:430-452 | the loop with removal on the way counts and expires every entry once |
| `BssTable.BssTable.FlushOlderThan` | hostap08/wpa_supplicant/bss.c:455-477 | the loop with removal on the way stops where the model stops |
| `BssTable.BssTable.FlushAll` | hostap08/wpa_supplicant/bss.c:500-512 | exactly the entries in use remain |
| `Priority.BuildIsStableSort` | hostap08/wpa_supplicant/config.c:1546-1615 | the heads have strictly decreasing priority and the concatenated chains are the stable descending sort of the list |
| `Priority.StableSortPermutes` | hostap08/wpa_supplicant/config.c:1546-1615 | the sorted list holds each network exactly as often as the list |
| `Priority.StableSortUnique` | hostap08/wpa_supplicant/config.c:1546-1615 | there is only one stable descending sort |
| `ConfigNetworks.Config.AddPrioNetwork` | hostap08/wpa_supplicant/config.c:1546-1585 | the network joins the end of the pnext chain of its priority, or a new chain in order |
| `ConfigNetworks.Config.UpdatePrioList` | hostap08/wpa_supplicant/config.c:1597-1615 | whatever the index was before, it is then that of the list |
| `ConfigNetworks.Config.IndexIsStableSort` | hostap08/wpa_supplicant/config.c:1597-1615 | a current index is the stable descending sort of the linked list, each network once |
| `ConfigNetworks.Config.GetNetwork` | hostap08/wpa_supplicant/config.c:1764-1776 | the network with the id, or none if and only if no network has it |
| `ConfigNetworks.Config.AddNetwork` | hostap08/wpa_supplicant/config.c:1784-1811 | the new network is last in the list, its id is one more than the greatest (0 for the first), and the index is current |
| `ConfigNetworks.Config.RemoveNetwork` | hostap08/wpa_supplicant/config.c:1820-1843 | exactly the network with the id leaves the list and the index is current; otherwise nothing changes |
| `ConfigNetworks.Config.SetPriority` | hostap08/wpa_supplicant/ctrl_iface.c:1431-1484 | only the priority of the network changes, and the index is current |
| `ConfigLine.HexRoundTrip` | hostap08/wpa_supplicant/config.c:185-195 | hexadecimal text reads back as the same octets |
| `ConfigLine.ParseWritten` | hostap08/wpa_supplicant/config.c:61-207 | a printed value parses to itself, whatever octets it has |
| `ConfigLine.ContentOfPrinted` | hostap08/wpa_supplicant/config_file.c:41-91 | removing comments and white space leaves a printed line as it was, with quotes, # and spaces in the value |
| `ConfigLine.LineRoundTrip` | hostap08/wpa_supplicant/config_file.c:41-186 | a value is read back exactly as printed if and only if its line without the newline is shorter than 256 octets |
| `ConfigLine.RestUnaffected` | hostap08/wpa_supplicant/config_file.c:41-91 | the lines after a printed line that fits are read as if it had not been there |
| `ConfigLine.DecoratedLine` | hostap08/wpa_supplicant/config_file.c:41-91 | a line reads the same with blanks around it and a comment without quotation marks behind it, whatever the value has in quotation marks |
| `ConfigLine.EmptyLine` | hostap08/wpa_supplicant/config_file.c:46-60 | lines of blanks and lines that begin with a comment are skipped |
| `ConfigLine.SplitIff` | hostap08/wpa_supplicant/config_file.c:144-169 | a line assigns a text to a name if and only if it is these two around its first equals sign and a quotation mark that opens the text is followed by another |
| `ConfigLine.ParseIff` | hostap08/wpa_supplicant/config.c:61-94 | a text stands for a value if and only if it is the value in quotation marks or in hexadecimal digits of either case |
| `ConfigLine.QuotedIff` | hostap08/wpa_supplicant/config.c:198-207 | a value is printed in quotation marks if and only if all its octets are printable ASCII |
| `ConfigFile.IsHex` | hostap08/wpa_supplicant/config.c:157-166 | whether some octet is not printable |
| `ConfigFile.WriteStringHex` | hostap08/src/utils/common.c:193-212 | the loop prints two lower-case digits for every octet |
| `ConfigFile.WriteStr` | hostap08/wpa_supplicant/config_file.c:348-355 | one line for a field that is set, nothing for one that is not |
| `ConfigFile.HexStr2Bin` | hostap08/src/utils/common.c:135-150 | the octets of the text, or nothing if a digit is not hexadecimal |
| `ConfigFile.ParseValue` | hostap08/wpa_supplicant/config.c:61-94 | the string between the outer quotes, or the octets of an even number of digits |
| `ConfigFile.CleanLine` | hostap08/wpa_supplicant/config_file.c:46-80 | what is left of one line without comment and white space, unless it is empty or a comment |
| `ConfigFile.GetLine` | hostap08/wpa_supplicant/config_file.c:41-91 | the first line with content and the stream after it |
| `ConfigFile.ReadNextField` | hostap08/wpa_supplicant/config_file.c:144-169 | what the next line gives a field: unset, a value within its limits, or an error |
| `ConfigFile.WriteThenRead` | hostap08/wpa_supplicant/config_file.c:348-355 | printing and then reading gives the value back if and only if the line is shorter than the buffer |
| `Bgscan.InArray` | hostap08/wpa_supplicant/bgscan_learn.c:201-214 | whether a value occurs before the terminating zero |
| `Bgscan.LearnedMembers` | hostap08/wpa_supplicant/bgscan_learn.c:217-238 | without zero frequencies, the learned list holds each frequency of the BSSs exactly once |
| `Bgscan.LearnedGrows` | hostap08/wpa_supplicant/bgscan_learn.c:217-238 | frequencies are learned in the order of the first BSS on each |
| `Bgscan.GetFreqs` | hostap08/wpa_supplicant/bgscan_learn.c:217-238 | the loop builds the learned list as a zero-terminated array |
| `Bgscan.BgscanLearn.GetProbeFreq` | hostap08/wpa_supplicant/bgscan_learn.c:241-271 | if some other supported frequency is unlearned (or the current one, when it is the first), the next one in cyclic order is appended and becomes the current one; otherwise nothing changes; the loop takes at most one turn for each supported frequency |
| `Bgscan.LoopEndsIff` | hostap08/wpa_supplicant/bgscan_learn.c:249-268 | the loop leaves within one cyclic pass if and only if the current index is not 0 or some supported frequency is unlearned |
| `Bgscan.LoopNeverEnds` | hostap08/wpa_supplicant/bgscan_learn.c:249-268 | otherwise it leaves at no turn at all |
| `Bgscan.NextIsSuccessor` | hostap08/wpa_supplicant/bgscan_learn.c:249-268 | with two or more unlearned frequencies the next probe is the cyclic successor of the last one |
| `Bgscan.ProbesGoRound` | hostap08/wpa_supplicant/bgscan_learn.c:241-271 | with two or more unlearned frequencies, from the first call on successive calls visit their positions in cyclic order, wherever the index stood before |
| `Bgscan.OncePerCycle` | hostap08/wpa_supplicant/bgscan_learn.c:241-271 | any n successive calls, for n positions to be probed, probe each of them exactly once |
| `Bgscan.EachFrequencyOncePerCycle` | hostap08/wpa_supplicant/bgscan_learn.c:241-271 | with distinct supported frequencies, any n successive calls, for n unlearned frequencies, probe each of these exactly once and no other |
| `Bgscan.ProbedListDistinct` | hostap08/wpa_supplicant/bgscan_learn.c:241-271 | the appended frequency is not in the list, which stays free of duplicates |

## Left out

- AES, SHA, CMAC, PBKDF2, the PRFs, key wrap and RADIUS are parameters or not part of the model.
- RX replay checks of `wlantest` are only logged there, so nothing is claimed about received packet numbers.
- SA Query transaction ids and all event counters of `wlantest`: they give only weak invariants.
- Injection of group-addressed management frames is `RxMgmtProtected.InjectBip`, apart from the class that sends the CCMP frames: they share no packet number.
- Notifications about changed scan results (`wpa_bss_compare_res`): callbacks without effect on the table.
- Look-ups of supported rates and vendor elements beyond those that decide whether a result is stored.
- The order of stations and BSSs in the lists of `wlantest`: the tables are maps, since only log lines depend on it.
- Fields of a network block that are not strings, and whole-network file round trips: not every field is printed.
- WEP, SIM and blacklist code of `wpa_supplicant`, control interfaces, sockets and packet capture.
- TDLS setup frames: only the links that other code has set up are used.
- Inject.InjectedNoncesDistinct: says nothing about frames injected with the dummy key across different key slots, because that key is shared on purpose.

# AmneziaWG tools, verified

A Dafny model of the parts of the AmneziaWG tools whose correctness is hard to see by reading: the key
arithmetic, the netlink protocol, the configuration highlighter, and the list and text transformations around
them. `dafny verify dfyconfig.toml` checks everything.

* **Public keys.** Curve25519 is implemented three times: with sixteen 16-bit signed limbs in loops
  (`Limbs16`), with five 51-bit limbs (`Limbs51`, `Curve51`, `Format51`) and with ten limbs of 25.5 bits
  (`Limbs25`, `Format25`, `Curve25`). Each is proved to compute, byte for byte, the public key of section 5 of
  RFC 7748 (`Rfc7748`) for every secret, with no machine word overflowing. `Field25519` defines residues and
  products by repeated subtraction and addition and proves that they are arithmetic modulo p. The 64-bit
  implementation takes one ladder step too many; `ExtraStep` and `BasePointCertificate` show that it does not
  matter.
* **Netlink.** `wg_set_device` cuts a device of any size into bounded messages (`DeviceWriter`), over attributes
  and nests that can be cancelled (`Netlink`, `NetlinkTree`); `KernelWriter` follows the same cursors in
  `kernel_set_device` for any outcome of its size checks. `wg_get_device` reads messages and glues the pieces
  of a peer together (`DeviceReader`, `Coalesce`). `RoundTrip` joins the two. `Receiver` reads what is sent by
  attribute numbers, as the kernel's header documents the command, and `ReaderFields` says what the reader makes
  of any bytes.
* **Highlighter.** `Highlighter` says line by line what the spans of a text are, `HighlightMachine` is the
  character-level state machine that produces them, `HighlightTiles` proves that they tile every text, and
  `HighlightKinds` says of the text itself which spans it has and of which kind.
  `IpText` compares the hand-written address checks with the grammar of RFC 4291.
* **Keys as text** (`KeyText`), **syncing a configuration** (`SyncConf`), **cleaning an ELF dynamic section**
  (`ElfCompaction`), **user id ranges** (`UidRanges`), **netmasks** (`Netmask`) and **string lists**
  (`StringList`).

C's integers are modelled as mathematical integers within the subset types of `Bits`, so that every place where a
word could wrap is a proof obligation; where the code relies on wrapping or truncation it is written out. The
bitwise operators of `Bits` work on infinite two's complement expansions, and shifting a negative value right is
an arithmetic shift. Allocations succeed. Functions that change arrays or objects in the source are methods with
`modifies` clauses; their contracts tie the new contents to a function whose properties are proved beside it.

Where the code and a promise differ:

* `coalesce_peers` follows a null pointer on some lists of peers. `RoundTrip.ReaderCrashesExactlyOnGaps` says for
  which messages, and `RoundTrip.GapMessage` gives some. Those that `wg_set_device` sends are not among them when
  no two neighbouring peers of the device share a key (`RoundTrip.ReadsBack`).
* `is_valid_ipv6` reads the character after its span, and accepts too much when that is a colon
  (`IpText.Ipv6Overreach`); no call site passes such a span, which the preconditions in `Highlighter` enforce.
* A key that is running twice is removed by `sync_conf` before the file puts it back (`SyncConf.KeptExactly`).
* Excluding the user id 99998 leaves 99999 out of the tunnel (`UidRanges.ComplementExactly`).

## Model

| member | source | states |
|---|---|---|
| `Rfc7748.SwapDisciplinesAgree` | awgtunnel/amneziawg-tools/src/curve25519-fiat32.h:796-838 | for every scalar, u-coordinate and bit position, a ladder that swaps before and after each step (wireguard.c) and one that carries the swap over (fiat32) hold the same coordinates up to the pending swap |
| `Rfc7748.CurveConstantForms` | awgtunnel/amneziawg-tools/src/curve25519-fiat32.h:825-836 | the 121666 form of the ladder step equals the 121665 form, for all field elements |
| `Rfc7748.RunByBytes` | awgtunnel/amneziawg-tools/src/curve25519-hacl64.h:541-585 | walking the scalar byte by byte, top bit first, is the bit-by-bit ladder |
| `Rfc7748.ClampMasks` | awgtunnel/amneziawg-tools/contrib/embeddable-wg-library/wireguard.c:1693-1697 | the clamping masks are the clearing and setting of bits of RFC 7748, for every byte |
| `Rfc7748.ScalarBits` | awgtunnel/amneziawg-tools/contrib/embeddable-wg-library/wireguard.c:1693-1697 | for every key, the scalar lies in [2^254, 2^255), is a multiple of 8, and has bits 3 to 253 of the key |
| `Rfc7748.CoordinateValue` | awgtunnel/amneziawg-tools/src/curve25519-fiat32.h:26-52 | a u-coordinate is the number modulo 2^255, then modulo p |
| `Rfc7748.StepIsMontgomery` | awgtunnel/amneziawg-tools/src/curve25519-hacl64.h:475-540 | a ladder step is doubling and differential addition on y^2 = x^3 + 486662 x^2 + x in projective coordinates, for all field elements |
| `Rfc7748.StepScales` | awgtunnel/amneziawg-tools/src/curve25519-hacl64.h:475-540 | a ladder step maps coordinates scaled by any factors to scaled coordinates, the algebra behind projective agreement |
| `Rfc7748.PublicKeyBothWays` | awgtunnel/amneziawg-tools/contrib/embeddable-wg-library/wireguard.c:1699-1736 | the swap-before-and-after ladder on base point 9 gives the public key of RFC 7748 |
| `LittleEndian.DecodeEncode` | awgtunnel/amneziawg-tools/src/curve25519.c:58-74 | little-endian decoding undoes encoding for every value that fits |
| `LittleEndian.EncodeDecode` | awgtunnel/amneziawg-tools/src/curve25519.c:58-74 | encoding undoes decoding for every byte string |
| `LittleEndian.BitOfByte` | awgtunnel/amneziawg-tools/contrib/embeddable-wg-library/wireguard.c:1709-1709 | the bit the ladders pick out of a byte is the bit of the scalar |
| `Limbs16.CarriedReduces` | awgtunnel/amneziawg-tools/contrib/embeddable-wg-library/wireguard.c:1587-1595 | carrying keeps the value mod p, for any limbs |
| `Limbs16.Carry` | awgtunnel/amneziawg-tools/contrib/embeddable-wg-library/wireguard.c:1587-1595 | the loop performs that carry within int64, for limbs up to the bound that a product reaches |
| `Limbs16.FirstPass` | awgtunnel/amneziawg-tools/contrib/embeddable-wg-library/wireguard.c:1617-1619 | one carry of bounded limbs leaves all but limb 0 in 16 bits |
| `Limbs16.ThirdPass` | awgtunnel/amneziawg-tools/contrib/embeddable-wg-library/wireguard.c:1617-1619 | three carries leave a 256-bit number with every limb in 16 bits |
| `Limbs16.CSwap16` | awgtunnel/amneziawg-tools/contrib/embeddable-wg-library/wireguard.c:1597-1607 | swaps two elements exactly when the bit is set, by masks |
| `Limbs16.Add` | awgtunnel/amneziawg-tools/contrib/embeddable-wg-library/wireguard.c:1643-1649 | the sum in the field, limbs within bounds |
| `Limbs16.Subtract` | awgtunnel/amneziawg-tools/contrib/embeddable-wg-library/wireguard.c:1651-1657 | the difference in the field, limbs within bounds |
| `Limbs16.Product` | awgtunnel/amneziawg-tools/contrib/embeddable-wg-library/wireguard.c:1659-1666 | the 31 product sums are the integer product and fit in int64 |
| `Limbs16.FoldTop` | awgtunnel/amneziawg-tools/contrib/embeddable-wg-library/wireguard.c:1667-1670 | folding the top limbs by 38 keeps the value mod p without overflow |
| `Limbs16.MultMod` | awgtunnel/amneziawg-tools/contrib/embeddable-wg-library/wireguard.c:1659-1675 | the product in the field; limb 0 ends in [-38, 65573] and the others in 16 bits, so the result can be multiplied again |
| `Limbs16.InvertExponentIsInverse` | awgtunnel/amneziawg-tools/contrib/embeddable-wg-library/wireguard.c:1681-1686 | the loop that skips the multiplication at 2 and 4 accumulates exactly the exponent 2^255 - 21 |
| `Limbs16.Invert` | awgtunnel/amneziawg-tools/contrib/embeddable-wg-library/wireguard.c:1677-1688 | the power p - 2 in the field |
| `Limbs16.DifferenceSign` | awgtunnel/amneziawg-tools/contrib/embeddable-wg-library/wireguard.c:1622-1631 | the borrow chain of the trial subtraction ends in the sign of value - p |
| `Limbs16.TwoSubtractions` | awgtunnel/amneziawg-tools/contrib/embeddable-wg-library/wireguard.c:1621-1634 | two conditional subtractions of p bring any number below 2p + 38 to its residue |
| `Limbs16.Pack` | awgtunnel/amneziawg-tools/contrib/embeddable-wg-library/wireguard.c:1613-1641 | for any bounded limbs, writes the little-endian bytes of the residue in [0, p) |
| `Limbs16.Step16` | awgtunnel/amneziawg-tools/contrib/embeddable-wg-library/wireguard.c:1710-1732 | one ladder iteration is the ladder step of section 5 of RFC 7748 and keeps the limb bound |
| `Limbs16.Ladder16` | awgtunnel/amneziawg-tools/contrib/embeddable-wg-library/wireguard.c:1708-1733 | all 255 iterations: the coordinates of the RFC ladder, limb bound kept throughout |
| `Limbs16.ClampKey` | awgtunnel/amneziawg-tools/contrib/embeddable-wg-library/wireguard.c:1693-1697 | clamps in place as RFC 7748 says |
| `Limbs16.GeneratePublicKey` | awgtunnel/amneziawg-tools/contrib/embeddable-wg-library/wireguard.c:1699-1745 | for every private key, writes exactly the public key of RFC 7748 |
| `Limbs51.ReducedKeeps` | awgtunnel/amneziawg-tools/src/curve25519-hacl64.h:83-206 | carrying a wide product and folding its top keeps the value mod p and ends within 2^51 + 2^13 |
| `Limbs51.WideFits` | awgtunnel/amneziawg-tools/src/curve25519-hacl64.h:83-206 | no 128-bit or 64-bit intermediate of the carry wraps, including 19 times the top carry |
| `Limbs51.MulRowsOver` | awgtunnel/amneziawg-tools/src/curve25519-hacl64.h:153-182 | rows of one operand, each multiplied by a limb of the other and then shifted and reduced, add up to the product but for a multiple of p, for any list of limbs |
| `Limbs51.MulWideRows` | awgtunnel/amneziawg-tools/src/curve25519-hacl64.h:153-182 | the five accumulated sums are those rows |
| `Limbs51.MulShiftReduce` | awgtunnel/amneziawg-tools/src/curve25519-hacl64.h:153-182 | five multiply-accumulate rounds compute that product without overflow |
| `Limbs51.FMulArrays` | awgtunnel/amneziawg-tools/src/curve25519-hacl64.h:183-213 | the product in the field, limbs below 2^51 + 2^13 again |
| `Limbs51.SquareIsProduct` | awgtunnel/amneziawg-tools/src/curve25519-hacl64.h:214-242 | the squaring formula is the general product of x with itself |
| `Limbs51.FSquare` | awgtunnel/amneziawg-tools/src/curve25519-hacl64.h:243-269 | in place, the same result as multiplying by itself |
| `Limbs51.FSquareTimes` | awgtunnel/amneziawg-tools/src/curve25519-hacl64.h:270-293 | n squarings are the power 2^n |
| `Limbs51.FSum` | awgtunnel/amneziawg-tools/src/curve25519-hacl64.h:338-346 | the sum in the field, limbs within the bound a product accepts |
| `Limbs51.FDifference` | awgtunnel/amneziawg-tools/src/curve25519-hacl64.h:347-392 | the difference in the field; adding 8p keeps every limb non-negative |
| `Limbs51.FScalar` | awgtunnel/amneziawg-tools/src/curve25519-hacl64.h:393-429 | multiplication by a small constant in the field |
| `InversionChain.Append` | awgtunnel/amneziawg-tools/src/curve25519-hacl64.h:294-337 | appending n ones to the exponent: the step both addition chains repeat |
| `InversionChain.Finish` | awgtunnel/amneziawg-tools/src/curve25519-hacl64.h:294-337 | the chain ends at the exponent p - 2 |
| `Curve51.Crecip` | awgtunnel/amneziawg-tools/src/curve25519-hacl64.h:294-337 | the power p - 2 in the field |
| `Curve51.AddAndDouble` | awgtunnel/amneziawg-tools/src/curve25519-hacl64.h:475-540 | one step is the ladder step of RFC 7748 and re-establishes the limb bound |
| `Curve51.PointSwap` | awgtunnel/amneziawg-tools/src/curve25519-hacl64.h:440-468 | swaps two points exactly when the bit is set |
| `Curve51.SmallLoop` | awgtunnel/amneziawg-tools/src/curve25519-hacl64.h:541-573 | eight steps for the eight bits of a byte |
| `Curve51.BigLoop` | awgtunnel/amneziawg-tools/src/curve25519-hacl64.h:574-584 | the loop over the 32 bytes, last one first, runs the ladder from step 256 down |
| `Curve51.LadderCmult` | awgtunnel/amneziawg-tools/src/curve25519-hacl64.h:586-597 | the 256-step ladder over the whole scalar |
| `Curve51.Generic51` | awgtunnel/amneziawg-tools/src/curve25519-hacl64.h:755-784 | for every secret and point, the canonical encoding of the result of the 256-step ladder |
| `ExtraStep.FirstStep` | awgtunnel/amneziawg-tools/src/curve25519-hacl64.h:574-598 | the step for the cleared bit 255 leaves the first point alone and multiplies the second by 4u |
| `ExtraStep.ExtraStepHarmless` | awgtunnel/amneziawg-tools/src/curve25519-hacl64.h:574-598 | that factor disappears in the final division whenever (4u)^(p-1) = 1 |
| `BasePointCertificate.UnitPower` | awgtunnel/amneziawg-tools/src/curve25519.c:88-93 | 36^(p-1) = 1 mod p, by a chain of 255 squarings: the condition holds for base point 9 |
| `Curve51.Generic51IsX25519` | awgtunnel/amneziawg-tools/src/curve25519-hacl64.h:755-784 | under that condition on the point, the result is X25519 of RFC 7748 |
| `Curve51.GeneratePublic51` | awgtunnel/amneziawg-tools/src/curve25519.c:88-93 | for every secret, writes exactly the public key of RFC 7748 |
| `Format51.EqMaskCorrect` | awgtunnel/amneziawg-tools/src/curve25519-hacl64.h:15-23 | all ones exactly when the words are equal |
| `Format51.GteMaskCorrect` | awgtunnel/amneziawg-tools/src/curve25519-hacl64.h:25-38 | all ones exactly when the first word is at least the second |
| `Format51.Trim` | awgtunnel/amneziawg-tools/src/curve25519-hacl64.h:689-713 | subtracts p exactly when the value is at least p, by masks |
| `Format51.ContractedBounds` | awgtunnel/amneziawg-tools/src/curve25519-hacl64.h:623-688 | two carry passes keep the value mod p and bring it below 2^255 |
| `Format51.Store` | awgtunnel/amneziawg-tools/src/curve25519-hacl64.h:714-734 | the five limbs as 32 little-endian bytes |
| `Format51.FContract` | awgtunnel/amneziawg-tools/src/curve25519-hacl64.h:735-742 | for any bounded limbs, the bytes of the residue in [0, p) |
| `Format51.FExpand` | awgtunnel/amneziawg-tools/src/curve25519-hacl64.h:599-622 | reads every byte string as the number without its top bit, limbs below 2^51 |
| `Format51.ExpandUndoesContract` | awgtunnel/amneziawg-tools/src/curve25519-hacl64.h:599-742 | expanding what was contracted gives the residue back |
| `Limbs25.MulWideVal` | awgtunnel/amneziawg-tools/src/curve25519-fiat32.h:330-348 | the 100-term product has the value of the product, every term in 64 bits |
| `Limbs25.SqrIsMul` | awgtunnel/amneziawg-tools/src/curve25519-fiat32.h:440-491 | the squaring formula is the product of x with itself |
| `Limbs25.FoldedVal` | awgtunnel/amneziawg-tools/src/curve25519-fiat32.h:349-375 | folding the nine high words by 19 keeps the value mod p |
| `Limbs25.ChainedReduces` | awgtunnel/amneziawg-tools/src/curve25519-fiat32.h:376-420 | the carry chain keeps the value mod p and ends within the tight bound |
| `Limbs25.FeMul` | awgtunnel/amneziawg-tools/src/curve25519-fiat32.h:308-438 | the product in the field, tight limbs, from loose limbs |
| `Limbs25.FeSqr` | awgtunnel/amneziawg-tools/src/curve25519-fiat32.h:440-555 | the same value as the product with itself, limb for limb |
| `Limbs25.FeMul121666` | awgtunnel/amneziawg-tools/src/curve25519-fiat32.h:631-750 | multiplication by 121666 in the field |
| `Limbs25.FeAdd` | awgtunnel/amneziawg-tools/src/curve25519-fiat32.h:222-263 | the sum in the field, from tight to loose limbs |
| `Limbs25.FeSub` | awgtunnel/amneziawg-tools/src/curve25519-fiat32.h:265-306 | the difference in the field; adding 2p keeps every limb non-negative |
| `Format25.CMovCorrect` | awgtunnel/amneziawg-tools/src/curve25519-fiat32.h:98-102 | selects by a mask |
| `Format25.FreezeIs` | awgtunnel/amneziawg-tools/src/curve25519-fiat32.h:104-158 | tight limbs to the unique canonical limbs of the residue, by subtracting p and adding it back under a mask |
| `Format25.FeToBytes` | awgtunnel/amneziawg-tools/src/curve25519-fiat32.h:160-197 | for tight limbs, the bytes of the residue in [0, p) |
| `Format25.FeFromBytes` | awgtunnel/amneziawg-tools/src/curve25519-fiat32.h:26-52 | reads every byte string as the number without its top bit, tight limbs |
| `Curve25.FeCSwap` | awgtunnel/amneziawg-tools/src/curve25519-fiat32.h:618-629 | swaps two elements exactly when the bit is set |
| `Curve25.LooseInvert` | awgtunnel/amneziawg-tools/src/curve25519-fiat32.h:556-616 | the power p - 2 in the field |
| `Curve25.LadderStep25` | awgtunnel/amneziawg-tools/src/curve25519-fiat32.h:819-836 | one iteration is the ladder step of RFC 7748, tight limbs again |
| `Curve25.Ladder25` | awgtunnel/amneziawg-tools/src/curve25519-fiat32.h:796-843 | 255 iterations with a delayed swap: the coordinates of the RFC ladder |
| `Curve25.Generic25` | awgtunnel/amneziawg-tools/src/curve25519-fiat32.h:752-860 | for every scalar and every point, exactly X25519 of RFC 7748 |
| `Curve25.GeneratePublic25` | awgtunnel/amneziawg-tools/src/curve25519.c:88-93 | for every secret, exactly the public key of RFC 7748 |
| `Netlink.Message.Put` | awgtunnel/amneziawg-tools/src/netlink.h:305-319 | appends the length, type, payload and zero padding of one attribute and keeps the length 4-aligned |
| `Netlink.AttrLayout` | awgtunnel/amneziawg-tools/src/netlink.h:305-319 | the bytes of an attribute by position: length and type low byte first, payload, zeros up to a multiple of four |
| `Netlink.Message.PutCheck` | awgtunnel/amneziawg-tools/src/netlink.h:355-362 | appends the attribute exactly when it fits, otherwise changes nothing |
| `Netlink.Message.NestStart` | awgtunnel/amneziawg-tools/src/netlink.h:346-353 | opens a nest whose length field is still arbitrary |
| `Netlink.Message.NestStartCheck` | awgtunnel/amneziawg-tools/src/netlink.h:382-388 | opens a nest exactly when its header fits |
| `Netlink.Message.NestEnd` | awgtunnel/amneziawg-tools/src/netlink.h:390-393 | turns an open nest into a complete attribute around everything written since |
| `Netlink.Message.NestCancel` | awgtunnel/amneziawg-tools/src/netlink.h:395-398 | restores the message as it was at the start of the nest |
| `Netlink.ParseNested` | awgtunnel/amneziawg-tools/src/netlink.h:266-276 | the pointer walk visits exactly the attributes of the recursive definition, for any bytes |
| `Netlink.WalkAttr` | awgtunnel/amneziawg-tools/src/netlink.h:159-170 | the walk steps over one written attribute and sees its type and payload |
| `NetlinkTree.Run` | awgtunnel/amneziawg-tools/src/netlink.h:305-398 | any interleaving of puts, nests and cancelled nests appends exactly the encoding of what was kept |
| `NetlinkTree.ReadTreesFollowWalk` | awgtunnel/amneziawg-tools/src/netlink.h:144-170 | the tree reader visits what the walk visits |
| `NetlinkTree.ReadEncoded` | awgtunnel/amneziawg-tools/src/netlink.h:266-276 | reading undoes writing for every tree of attributes |
| `NetlinkTree.ReadsBackWhatWasKept` | awgtunnel/amneziawg-tools/src/netlink.h:254-398 | whatever was cancelled on the way, a message reads back as exactly the uncancelled tree |
| `DeviceWriter.WriteIp` | awgtunnel/amneziawg-tools/contrib/embeddable-wg-library/wireguard.c:1162-1181 | one allowed IP as a nest, or nothing at all; 40 bytes of room are always enough |
| `DeviceWriter.WriteIpNest` | awgtunnel/amneziawg-tools/contrib/embeddable-wg-library/wireguard.c:1156-1187 | the allowed IPs of a fragment from the cursor on, in order, until one does not fit; the cursor ends at the first unwritten one |
| `DeviceWriter.PutHead` | awgtunnel/amneziawg-tools/contrib/embeddable-wg-library/wireguard.c:1119-1155 | key always; preshared key, endpoint, keepalive and the replace flag only in a first fragment |
| `DeviceWriter.WriteInsidePeer` | awgtunnel/amneziawg-tools/contrib/embeddable-wg-library/wireguard.c:1119-1187 | inside the nest of a peer: the head and the allowed IPs from the cursor on, with both fitting when there is room for the head and one allowed IP |
| `DeviceWriter.WritePeer` | awgtunnel/amneziawg-tools/contrib/embeddable-wg-library/wireguard.c:1116-1190 | one pass of the peer loop with both of its exits: a whole peer, a peer cut at an allowed IP, or nothing |
| `DeviceWriter.WrittenNext` | awgtunnel/amneziawg-tools/contrib/embeddable-wg-library/wireguard.c:1116-1206 | each fragment extends what the fragments so far stand for by exactly its allowed IPs |
| `DeviceWriter.WritePeers` | awgtunnel/amneziawg-tools/contrib/embeddable-wg-library/wireguard.c:1116-1208 | the peer loop of one message writes at least one fragment and moves the cursor forward |
| `DeviceWriter.WriteMessage` | awgtunnel/amneziawg-tools/contrib/embeddable-wg-library/wireguard.c:1096-1208 | one message, within the buffer; the device attributes only in the first |
| `DeviceWriter.SetDevice` | awgtunnel/amneziawg-tools/contrib/embeddable-wg-library/wireguard.c:1082-1214 | for every device and every buffer of 4096 to 8192 bytes: finitely many messages, each within the buffer, whose fragments rejoin to exactly the device's peers; every continuation repeats its peer's key and brings at least one allowed IP |
| `Receiver.FragmentGet` | awgtunnel/amneziawg-tools/contrib/embeddable-wg-library/wireguard.c:1119-1187 | every attribute of a fragment by its number: which are there, and with which payload; everything but key, flags and allowed IPs only in a first fragment |
| `Receiver.FlagsHeard` | awgtunnel/amneziawg-tools/contrib/embeddable-wg-library/wireguard.c:1125-1129 | read off the bytes of any fragment: bit 0 exactly when the peer is to be removed, bit 1 exactly in the first fragment of a peer whose allowed IPs are replaced, no other bit |
| `Receiver.RouteHeard` | awgtunnel/amneziawg-tools/contrib/embeddable-wg-library/wireguard.c:1162-1181 | the three attributes of an allowed IP by number, for any family |
| `Receiver.MessageGet` | awgtunnel/amneziawg-tools/contrib/embeddable-wg-library/wireguard.c:1096-1114 | every attribute of a message by its number: the name in all of them, the private key, port, mark and replace flag only in the first |
| `Receiver.ContinuationAdds` | awgtunnel/amneziawg-tools/src/uapi/linux/linux/wireguard.h:121-129 | a continuation adds its allowed IPs to those its peer has, and changes nothing else |
| `Receiver.RunFlags` | awgtunnel/amneziawg-tools/contrib/embeddable-wg-library/wireguard.c:1124-1148 | every fragment of a run has the flags of its peer |
| `Receiver.RunSetsTheDevice` | awgtunnel/amneziawg-tools/src/uapi/linux/linux/wireguard.h:72-129 | whatever a receiver holds, the messages of a run leave it with what the device says, and every message names the interface |
| `Receiver.SetDeviceHeard` | awgtunnel/amneziawg-tools/contrib/embeddable-wg-library/wireguard.c:1082-1214 | the same of `wg_set_device` as one program, for every device and buffer size |
| `Receiver.EachPeerIsSet` | awgtunnel/amneziawg-tools/src/uapi/linux/linux/wireguard.h:88-95 | with distinct keys, a removed peer is gone and any other has exactly its allowed IPs, behind the earlier ones unless they are replaced |
| `KernelWriter.TakeCovers` | awgtunnel/amneziawg-tools/src/ipc-linux.h:256-345 | one pass of the peer loop, for each thing the size checks can let it do, keeps the invariant that what was sent is exactly what lies before the cursors |
| `KernelWriter.EveryRunCovers` | awgtunnel/amneziawg-tools/src/ipc-linux.h:144-345 | the invariant holds in every reachable state, over any number of messages and any outcomes of the checks |
| `KernelWriter.FinishedRunsAreComplete` | awgtunnel/amneziawg-tools/src/ipc-linux.h:144-345 | once the peers run out, the fragments rejoin to exactly the device's peers, and every continuation repeats its peer's key |
| `KernelWriter.TakeReads` | awgtunnel/amneziawg-tools/src/ipc-linux.h:744-764 | each pass keeps what the fragments sent so far coalesce to: the finished peers and the part of the one under the cursor, unless there is a gap |
| `KernelWriter.RunsCrashOnGaps` | awgtunnel/amneziawg-tools/src/ipc-linux.h:744-764 | coalescing what a run has sent follows a null pointer if and only if some piece without allowed IPs sits between a piece with some and another piece of its key |
| `KernelWriter.FinishedRunsReadBack` | awgtunnel/amneziawg-tools/src/ipc-linux.h:744-764 | a finished run without such a gap coalesces to exactly the device's peers if and only if no two neighbours share a key |
| `DeviceReader.IpBack` | awgtunnel/amneziawg-tools/contrib/embeddable-wg-library/wireguard.c:1216-1240 | any allowed IP that was written is read, with the bytes its family carries |
| `DeviceReader.NestReads` | awgtunnel/amneziawg-tools/contrib/embeddable-wg-library/wireguard.c:1242-1264 | a written nest is read in order to its end, or up to and including the first allowed IP of another family or with a longer prefix than its family has |
| `DeviceReader.NestBack` | awgtunnel/amneziawg-tools/contrib/embeddable-wg-library/wireguard.c:1242-1264 | a nest of allowed IPs reads back whole and in order |
| `DeviceReader.FragmentBack` | awgtunnel/amneziawg-tools/contrib/embeddable-wg-library/wireguard.c:1278-1331 | a peer fragment reads back with exactly what it carries |
| `DeviceReader.FragmentStops` | awgtunnel/amneziawg-tools/contrib/embeddable-wg-library/wireguard.c:1255-1263 | such an allowed IP ends the reading of its fragment, and the peer keeps those up to it |
| `DeviceReader.PeersNestBack` | awgtunnel/amneziawg-tools/contrib/embeddable-wg-library/wireguard.c:1333-1355 | a nest of peers is appended to the list, one peer per fragment |
| `RoundTrip.MessageBack` | awgtunnel/amneziawg-tools/contrib/embeddable-wg-library/wireguard.c:1357-1404 | a whole message reads back: device attributes of the first, peers of all |
| `RoundTrip.AllBack` | awgtunnel/amneziawg-tools/contrib/embeddable-wg-library/wireguard.c:1428-1454 | all messages of a run together |
| `RoundTrip.ParseMessage` | awgtunnel/amneziawg-tools/contrib/embeddable-wg-library/wireguard.c:1357-1404 | the callback loop over one message, stopping at the first error, for any bytes |
| `ReaderFields.ReadIpFields` | awgtunnel/amneziawg-tools/contrib/embeddable-wg-library/wireguard.c:1216-1240 | in any bytes, the latest attribute of the right size counts for each field of an allowed IP; a 4-byte address overlays a 16-byte one |
| `ReaderFields.NestFields` | awgtunnel/amneziawg-tools/contrib/embeddable-wg-library/wireguard.c:1242-1264 | any items of a list are read up to and including the first allowed IP out of range |
| `ReaderFields.ReadPeerFields` | awgtunnel/amneziawg-tools/contrib/embeddable-wg-library/wireguard.c:1278-1331 | in any bytes, the latest attribute of the right size counts for each field of a peer, its lists of allowed IPs are appended, and a list that fails ends the reading |
| `ReaderFields.PeersFields` | awgtunnel/amneziawg-tools/contrib/embeddable-wg-library/wireguard.c:1333-1355 | any items of a peers list are read up to and including the first peer without a public key |
| `ReaderFields.DeviceFields` | awgtunnel/amneziawg-tools/contrib/embeddable-wg-library/wireguard.c:1357-1398 | in any message, the latest attribute of the right size counts for each field of the device, and a peers list that fails ends the reading |
| `RoundTrip.ReadMessages` | awgtunnel/amneziawg-tools/contrib/embeddable-wg-library/wireguard.c:1428-1472 | reading any messages and coalescing: the device, an error, or a null dereference |
| `Coalesce.CoalescePeers` | awgtunnel/amneziawg-tools/contrib/embeddable-wg-library/wireguard.c:1406-1426 | the list loop merges each run of equal keys into its first peer, or follows a null pointer |
| `Coalesce.CrashesExactlyOnGaps` | awgtunnel/amneziawg-tools/contrib/embeddable-wg-library/wireguard.c:1417-1422 | on a list whose tail pointers match its allowed IPs, it follows a null pointer exactly when a piece without allowed IPs sits between a piece with some and another piece of the same key |
| `RoundTrip.ReadAllTails` | awgtunnel/amneziawg-tools/contrib/embeddable-wg-library/wireguard.c:1249-1254 | the tail pointers match the allowed IPs in the list read from any messages |
| `RoundTrip.ReaderCrashesExactlyOnGaps` | awgtunnel/amneziawg-tools/contrib/embeddable-wg-library/wireguard.c:1428-1464 | for any messages, getting a device dereferences null if and only if they parse and their peers have such a gap |
| `RoundTrip.GapMessage` | awgtunnel/amneziawg-tools/contrib/embeddable-wg-library/wireguard.c:1428-1464 | a message with pieces of one, no and one allowed IP of one peer is such an input, whatever its headers and device attributes |
| `Coalesce.CoalescingConserves` | awgtunnel/amneziawg-tools/contrib/embeddable-wg-library/wireguard.c:1406-1426 | otherwise every (key, allowed IP) pair is kept once and in order, and no two neighbours share a key |
| `RoundTrip.CoalescedBack` | awgtunnel/amneziawg-tools/contrib/embeddable-wg-library/wireguard.c:1406-1426 | the fragments of a run coalesce into the peers they were cut from |
| `RoundTrip.ReadsBack` | awgtunnel/amneziawg-tools/contrib/embeddable-wg-library/wireguard.c:1082-1472 | whatever the split, reading the messages of a run restores every peer with key, preshared key, endpoint, keepalive and allowed IPs in order |
| `RoundTrip.ReadsBackExactly` | awgtunnel/amneziawg-tools/contrib/embeddable-wg-library/wireguard.c:1406-1426 | the peers are restored if and only if no two neighbours have the same key |
| `RoundTrip.SeenDeviceRestored` | awgtunnel/amneziawg-tools/contrib/embeddable-wg-library/wireguard.c:1428-1472 | the device that is read back, field by field: what was set has its value, the rest is zero |
| `RoundTrip.SetThenGet` | awgtunnel/amneziawg-tools/contrib/embeddable-wg-library/wireguard.c:1082-1472 | the writer followed by the reader, as one program, restores the device field by field |
| `IpText.CheckIpv4` | awgtunnel/amneziawg-tools/contrib/highlighter/highlighter.c:124-140 | accepts exactly the dotted quads without leading zeros, whatever follows the span |
| `IpText.ScanBefore` | awgtunnel/amneziawg-tools/contrib/highlighter/highlighter.c:154-178 | the scan before the double colon accepts exactly what the grammar allows there |
| `IpText.ScanAfter` | awgtunnel/amneziawg-tools/contrib/highlighter/highlighter.c:154-178 | the scan after the double colon accepts exactly a list of at most the words that are left |
| `IpText.Ipv6Exactly` | awgtunnel/amneziawg-tools/contrib/highlighter/highlighter.c:142-178 | for a span not followed by a colon, accepts exactly the text forms of section 2.2 of RFC 4291 |
| `IpText.Ipv6Overreach` | awgtunnel/amneziawg-tools/contrib/highlighter/highlighter.c:142-178 | followed by a colon it accepts in addition exactly the lists of up to seven groups |
| `IpText.Ipv6OverreachExample` | awgtunnel/amneziawg-tools/contrib/highlighter/highlighter.c:165-175 | "1:2" before a colon is accepted and is no address |
| `IpText.CheckIpv6` | awgtunnel/amneziawg-tools/contrib/highlighter/highlighter.c:142-178 | the loop of the source, tied to that definition |
| `FieldChecks.NetworkExactly` | awgtunnel/amneziawg-tools/contrib/highlighter/highlighter.c:315-339 | a network is an address of either family with an optional prefix length that fits it |
| `FieldChecks.EndpointExactly` | awgtunnel/amneziawg-tools/contrib/highlighter/highlighter.c:272-313 | accepts exactly a hostname or dotted quad with ":" and a port, or a bracketed address of RFC 4291 with an optional "%" scope and ":" and a port |
| `FieldChecks.EndpointHasColon` | awgtunnel/amneziawg-tools/contrib/highlighter/highlighter.c:555-558 | so an accepted endpoint has the colon that its caller searches for |
| `HighlightMachine.SpanArray.Append` | awgtunnel/amneziawg-tools/contrib/highlighter/highlighter.c:425-443 | appends one non-empty span and keeps the length within the capacity |
| `HighlightMachine.WriteItem` | awgtunnel/amneziawg-tools/contrib/highlighter/highlighter.c:445-480 | the spans of one list item |
| `HighlightMachine.WriteList` | awgtunnel/amneziawg-tools/contrib/highlighter/highlighter.c:482-508 | the loop over a comma-separated value produces trimmed items and commas, the last comma an error when nothing follows |
| `HighlightMachine.WriteValue` | awgtunnel/amneziawg-tools/contrib/highlighter/highlighter.c:510-575 | the spans of a value by the field it belongs to |
| `HighlightMachine.Flush` | awgtunnel/amneziawg-tools/contrib/highlighter/highlighter.c:588-609 | at the end of a line's content, exactly the spans that the line still lacks |
| `HighlightMachine.HighlightConfig` | awgtunnel/amneziawg-tools/contrib/highlighter/highlighter.c:577-641 | for every text, the character-level machine produces the spans of the line-by-line definition, then the end marker |
| `HighlightKinds.FieldIs` | awgtunnel/amneziawg-tools/contrib/highlighter/highlighter.c:373-397 | the fields are exactly the seventeen names, ignoring case |
| `HighlightKinds.ListIs` | awgtunnel/amneziawg-tools/contrib/highlighter/highlighter.c:482-508 | the spans of a list: its commas, an error on a last comma, and its trimmed items, each by the grammar of addresses, networks or hostnames |
| `HighlightKinds.ValueIs` | awgtunnel/amneziawg-tools/contrib/highlighter/highlighter.c:510-572 | the spans of a value by the grammar of its field: an error exactly outside it, and the kind of the field otherwise |
| `HighlightKinds.NextSection` | awgtunnel/amneziawg-tools/contrib/highlighter/highlighter.c:596-600 | the section of a line is that of the nearest heading above it |
| `HighlightKinds.SpansExactly` | awgtunnel/amneziawg-tools/contrib/highlighter/highlighter.c:574-641 | for every text, the spans are exactly those that its lines, headings and value grammars call for, each with its kind |
| `HighlightKinds.KeySpanKind` | awgtunnel/amneziawg-tools/contrib/highlighter/highlighter.c:621-628 | a name is a field exactly when it fits the nearest heading above it, and an error otherwise |
| `HighlightKinds.OnlyNamesAreFields` | awgtunnel/amneziawg-tools/contrib/highlighter/highlighter.c:621-628 | nothing else is marked as a field |
| `HighlightTiles.LinesTile` | awgtunnel/amneziawg-tools/contrib/highlighter/highlighter.c:577-641 | the spans tile every text: between them lie only blanks and newlines |
| `HighlightTiles.EveryText` | awgtunnel/amneziawg-tools/contrib/highlighter/highlighter.c:425-641 | spans are non-empty, in bounds, increasing and disjoint, and every other character lies in one |
| `HighlightTiles.Paint` | awgtunnel/amneziawg-tools/contrib/highlighter/highlight.c:61-83 | the printing loop puts out every character once, in the colour of the span it is in, or in none |
| `HighlightTiles.HighlightAndPaint` | awgtunnel/amneziawg-tools/contrib/highlighter/highlight.c:61-83 | for every text, taking the colours out of the output restores the input, and every character has the colour of its span |
| `KeyText.EncodeCharIs` | awgtunnel/amneziawg-tools/src/encoding.c:15-20 | the branch-free expression is the base64 alphabet |
| `KeyText.DecodeCharIs` | awgtunnel/amneziawg-tools/src/encoding.c:39-46 | the branch-free expression is the position in the alphabet or -1, for signed and unsigned chars |
| `KeyText.EncodeBase64` | awgtunnel/amneziawg-tools/src/encoding.c:11-22 | three bytes to four characters |
| `KeyText.KeyToBase64` | awgtunnel/amneziawg-tools/src/encoding.c:24-33 | the base64 text of the key, terminated |
| `KeyText.DecodeBase64` | awgtunnel/amneziawg-tools/src/encoding.c:35-48 | the 24-bit value, negative exactly when a character is outside the alphabet |
| `KeyText.KeyFromBase64` | awgtunnel/amneziawg-tools/src/encoding.c:50-72 | accepts exactly 44 characters with zero pad bits, and decodes them |
| `KeyText.DecodeEncode` | awgtunnel/amneziawg-tools/src/encoding.c:24-72 | decoding undoes encoding for every key |
| `KeyText.EncodeDecode` | awgtunnel/amneziawg-tools/src/encoding.c:50-72 | every accepted string re-encodes to itself |
| `KeyText.Base64Number` | awgtunnel/amneziawg-tools/src/encoding.c:24-33 | the text of a key is its big-endian number, shifted by two pad bits, in base 64 |
| `KeyText.AlphabetIs` | awgtunnel/amneziawg-tools/src/encoding.c:15-20 | the 64 characters of base64 in order |
| `KeyText.IsValidKey` | awgtunnel/amneziawg-tools/contrib/highlighter/highlighter.c:60-92 | the highlighter accepts exactly the strings the decoder accepts |
| `KeyText.NibbleIs` | awgtunnel/amneziawg-tools/src/encoding.c:94-109 | the masks and values computed for a hexadecimal character |
| `KeyText.KeyToHex` | awgtunnel/amneziawg-tools/src/encoding.c:74-83 | the lower-case hexadecimal text, terminated |
| `KeyText.KeyFromHex` | awgtunnel/amneziawg-tools/src/encoding.c:85-114 | accepts exactly 64 hexadecimal digits of either case, and decodes them |
| `KeyText.UnhexHex` | awgtunnel/amneziawg-tools/src/encoding.c:74-114 | hexadecimal decoding undoes encoding |
| `KeyText.HexAt` | awgtunnel/amneziawg-tools/src/encoding.c:74-83 | byte i is characters 2i and 2i + 1, the high digit first |
| `KeyText.HexDigitIs` | awgtunnel/amneziawg-tools/src/encoding.c:94-109 | the sixteen digits, of either case when read |
| `KeyText.KeyIsZero` | awgtunnel/amneziawg-tools/src/encoding.c:116-125 | true exactly when every byte is zero |
| `SyncConf.OriginTotal` | awgtunnel/amneziawg-tools/src/setconf.c:21-28 | the comparison is a total preorder, as the sort requires |
| `SyncConf.RemovedExactly` | awgtunnel/amneziawg-tools/src/setconf.c:65-95 | for all inputs, a key is removed as often as it is running, once less when the file has it |
| `SyncConf.RemovesTheDifference` | awgtunnel/amneziawg-tools/src/setconf.c:77-95 | with distinct running keys: exactly the running keys absent from the file, once each |
| `SyncConf.Sync` | awgtunnel/amneziawg-tools/src/setconf.c:30-99 | removals in front, the file's peers in order behind them; both early returns and the failure to read the device |
| `SyncConf.LeavesTheFile` | awgtunnel/amneziawg-tools/src/setconf.c:30-99 | on every success path, applying the change leaves exactly the file's keys |
| `SyncConf.ChangeExactly` | awgtunnel/amneziawg-tools/src/setconf.c:30-99 | the change keeps the running peers, ends with the file's peers as they are, and has only removals in front, of each key as often as it is running, but once less if the file has it |
| `SyncConf.KeptExactly` | awgtunnel/amneziawg-tools/src/setconf.c:53-95 | a peer that is running and in the file is on the device before, during and after the change, if and only if it is not running twice |
| `Sorting.SortKeeps` | awgtunnel/amneziawg-tools/src/setconf.c:75-75 | a sorted permutation, for any total preorder |
| `ElfCompaction.LastNonNull` | awgtunnel/tools/elf-cleaner/elf-cleaner.cpp:137-144 | the last entry other than DT_NULL |
| `ElfCompaction.NulledKeeps` | awgtunnel/tools/elf-cleaner/elf-cleaner.cpp:162-170 | retagging and swapping loses no retained entry and keeps the nulls behind |
| `ElfCompaction.MaskKeeps` | awgtunnel/tools/elf-cleaner/elf-cleaner.cpp:171-187 | masking flags changes no other entry |
| `ElfCompaction.RemovedTags` | awgtunnel/tools/elf-cleaner/elf-cleaner.cpp:149-161 | which tags are removed, by number, API level and machine |
| `ElfCompaction.Compact` | awgtunnel/tools/elf-cleaner/elf-cleaner.cpp:133-188 | for every non-empty section: all accesses in bounds, no tag left that its API level forbids, the retained entries the same with flags masked; nulls stay last when they were last |
| `UidRanges.RangesApart` | awgtunnel/amneziawg-tools/src/wg-quick/android.c:805-824 | the ranges are non-empty, increasing and disjoint |
| `UidRanges.ComplementExactly` | awgtunnel/amneziawg-tools/src/wg-quick/android.c:805-824 | they are the complement in 0..99999 if and only if the largest excluded id is not 99998 and no id between 99999 and it is left out of the list |
| `UidRanges.LostId` | awgtunnel/amneziawg-tools/src/wg-quick/android.c:821-824 | excluding 99998 leaves 99999 uncovered |
| `UidRanges.ExcludedComplement` | awgtunnel/amneziawg-tools/src/wg-quick/android.c:740-824 | for excluded ids up to 99997 in any order and with duplicates, exactly the other ids up to 99999 |
| `UidRanges.SetUsersExcluding` | awgtunnel/amneziawg-tools/src/wg-quick/android.c:791-839 | the commands carry these ranges in order, 18 each but for the last |
| `UidRanges.SinglesCover` | awgtunnel/amneziawg-tools/src/wg-quick/android.c:825-835 | the included ids and no others |
| `UidRanges.SetUsersIncluding` | awgtunnel/amneziawg-tools/src/wg-quick/android.c:825-839 | one argument per included id, 18 per command but for the last |
| `Netmask.WordsAreBytes` | awgtunnel/amneziawg-tools/src/config.c:295-317 | the words the loop reads are the address as one number |
| `Netmask.ClearStep` | awgtunnel/amneziawg-tools/src/config.c:308-317 | one word of the loop decides the bits of that word |
| `Netmask.ValidateNetmask` | awgtunnel/amneziawg-tools/src/config.c:290-320 | true exactly when the low (width - cidr) bits of the whole address are zero, for both families and every cidr; other families pass |
| `StringList.List.Add` | awgtunnel/amneziawg-tools/src/ipc.c:18-41 | keeps the buffer terminated with room for the terminator, appends the string, skips an empty one |
| `StringList.WalkBuffer` | awgtunnel/amneziawg-tools/src/ipc.c:54-55 | walking by string length gives the stored strings back, whatever lies behind |
| `StringList.AddAll` | awgtunnel/amneziawg-tools/src/ipc.c:18-41 | after any sequence of additions a reader finds exactly the non-empty strings, in order |

## Left out

- Sockets, sending and receiving, `getaddrinfo`, file access, `popen`, binder and JNI: foreign calls. Message headers are parameters, and every send and acknowledgement succeeds.
- Primality of p, the group law of the curve, constant-time behaviour and the zeroing of memory.
- Curve51.Generic51IsX25519: for points other than the base point it is conditional on (4u)^(p-1) = 1, which for u not divisible by p is Fermat's theorem and needs that p is prime.
- Netlink.Message.Put: payloads that do not fit the 16-bit length field, which the source would truncate and never writes; the message length in the netlink header is the field `len`, not bytes of the buffer.
- DeviceWriter.SetDevice: page sizes below 4096 bytes; errors from the kernel end the run in the source.
- Receiver.RunSetsTheDevice: an allowed IP that one peer takes over from another; the receiver follows the documentation of the command, as the kernel's code is not part of this model.
- RoundTrip.ReadsBack: allowed IPs of other families than IPv4 and IPv6 or with a longer prefix than their family allows, which the reader rejects; the interface name, counters and handshake times are not read back.
- KernelWriter.FinishedRunsReadBack: `kernel_set_device` is modelled by its cursors, with the outcomes of the size checks left open; its attribute bytes and buffer sizes are not, so no bound on its messages and no termination is stated.
- Coalesce.CoalescePeers: the linked list is a sequence, so relinking and freeing of nodes are not captured; the null state of the tail pointer is.
- HighlightMachine.HighlightConfig: the mobile subset of fields, which is the same code without some cases.
- SyncConf.Sync: the order among removals is that of the sort; peers' other settings are opaque.
- UidRanges.SetUsersExcluding: user ids from 2^31 on, for which `compare_uid` is not an order; the text of the commands; reading the package list.
- ElfCompaction.Compact: `--dry-run`, empty sections, and the checks of headers against the file size; an interior DT_NULL may stay where it is.
- KeyText.KeyFromBase64: the contents of the key buffer after a rejection.
- StringList.List.Add: failing reallocation.
- Command-line and configuration-file dispatch, `show`, `showconf`, the BSD and Windows back ends, the highlighter's graphical interface and the Android application.

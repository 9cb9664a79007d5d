/**
 * Value types shared by the TSCH schedule store, the slot selector and the
 * association logic: fixed-width integers, link-layer addresses, link options
 * and types, links and slotframes.
 *
 * Field widths follow struct tsch_link and struct tsch_slotframe of Contiki-NG
 * (tsch-types.h, which is not part of this model): handles, timeslots, channel
 * offsets and slotframe sizes are 16-bit, addresses are 8 bytes long.
 */
module TschTypes {
  type uint8 = x: int | 0 <= x < 0x100
  type uint16 = x: int | 0 <= x < 0x1_0000
  type uint32 = x: int | 0 <= x < 0x1_0000_0000

  /** The Absolute Slot Number is a 40-bit counter (section 6.2.6.1 of IEEE 802.15.4-2015). */
  const ASN_LIMIT: int := 0x100_0000_0000
  type Asn = x: int | 0 <= x < ASN_LIMIT

  /** A link-layer address (LINKADDR_SIZE == 8 in the TSCH builds). */
  type LinkAddr = a: seq<uint8> | |a| == 8 witness [0, 0, 0, 0, 0, 0, 0, 0]

  /** linkaddr_null: the all-zero address, also the EB destination. */
  const NullAddr: LinkAddr := [0, 0, 0, 0, 0, 0, 0, 0]
  /** tsch_broadcast_address (os/net/mac/tsch/tsch.c:587). */
  const BroadcastAddr: LinkAddr := [0xff, 0xff, 0xff, 0xff, 0xff, 0xff, 0xff, 0xff]

  /** The LINK_OPTION_* bits of a link. */
  datatype LinkOptions = LinkOptions(tx: bool, rx: bool, shared: bool, timeKeeping: bool)

  datatype LinkType = Normal | Advertising | AdvertisingOnly

  datatype Link = Link(
    handle: uint16,
    options: LinkOptions,
    linkType: LinkType,
    slotframeHandle: uint16,
    timeslot: uint16,
    channelOffset: uint16,
    addr: LinkAddr)

  /** A slotframe with its links in list order (Contiki's list_add appends). */
  datatype Slotframe = Slotframe(handle: uint16, size: uint16, links: seq<Link>)

  /** The cell (timeslot, channel offset) a link occupies. */
  predicate AtCell(l: Link, timeslot: int, channelOffset: int) {
    l.timeslot == timeslot && l.channelOffset == channelOffset
  }
}

/**
 * The TSCH framing glue of os/net/mac/tsch/tsch-packet.c: the validation
 * chains of tsch_packet_parse_eb and tsch_packet_parse_eack, the enhanced-ACK
 * and EB construction (which IEs go in, where the Synchronization IE sits),
 * the in-place EB update before transmission and the frame-pending bit.
 *
 * The IEEE 802.15.4 header parser/encoder and the generic IE parser
 * (frame802154.c, frame802154e-ie.c) are not part of this model: the header
 * parser is an input (its length, 0 on failure, and the fields it extracted),
 * the IE parser a function from (offset, length) to the octets it consumed
 * and the IEs it found. The two IEs this file writes itself, the Time
 * Correction header IE of an enhanced ACK and the TSCH Synchronization IE of
 * an EB, are encoded as IEEE 802.15.4-2015 lays them out.
 */
module TschPacket {
  import opened Wrappers
  import opened TschTypes
  import opened LittleEndian
  import opened TschState

  type int16 = x: int | -0x8000 <= x < 0x8000

  /** Frame type and version codes of the frame control field. */
  const BEACON_FRAME: nat := 0
  const FRAME_VERSION_2015: nat := 2

  /** The length of the Payload IE header create_eb inserts before the Synchronization IE. */
  const PAYLOAD_IE_HDR_LEN: nat := 2

  /** The fields of a parsed MAC header the two parsers check. */
  datatype Frame = Frame(
    frameType: nat,
    frameVersion: nat,
    seqno: uint8,
    iePresent: bool,
    destPanIdOk: bool,
    dest: Option<LinkAddr>,
    micLen: nat)

  /** The result of frame802154_parse: the header length (0 when it failed) and the fields. */
  datatype Header = Header(len: nat, frame: Frame)

  /** The IEs a parse found: each present or not. */
  datatype FoundIes = FoundIes(
    sync: Option<(Asn, uint8)>,
    timeCorrection: Option<(int16, bool)>,
    payloadIeOffset: nat)

  /** The parts of struct ieee802154_ies the callers read. */
  datatype Ies = Ies(asn: Asn, joinPriority: uint8, timeCorrection: int16, isNack: bool, payloadIeOffset: nat)

  /** The IE parser: given the region's offset and length, the octets consumed and the IEs found, or None for -1. */
  type IeParser = (nat, int) -> Option<(nat, FoundIes)>

  /** What a successful parse reports: the returned length and *hdr_len (both uint8 in the source) and the IEs. */
  datatype Parsed = Parsed(len: uint8, hdrLen: uint8, ies: Ies)

  /** The zeroed ies struct parse_eack starts from. */
  const ZeroIes: Ies := Ies(0, 0, 0, false, 0)

  /** parse_eb's starting struct: zeroed, with join priority 0xff in case the EB has no Synchronization IE. */
  const EbPresetIes: Ies := Ies(0, 0xff, 0, false, 0)

  /** The struct after IE parsing: the fields of the IEs found overwrite the preset. */
  function Filled(preset: Ies, found: FoundIes): (r: Ies)
    ensures found.sync.None? ==> r.asn == preset.asn && r.joinPriority == preset.joinPriority
    ensures found.sync.Some? ==> (r.asn, r.joinPriority) == found.sync.value
    ensures found.timeCorrection.None? ==> r.timeCorrection == preset.timeCorrection && r.isNack == preset.isNack
    ensures found.timeCorrection.Some? ==> (r.timeCorrection, r.isNack) == found.timeCorrection.value
    ensures r.payloadIeOffset == found.payloadIeOffset
  {
    var withSync := if found.sync.Some? then preset.(asn := found.sync.value.0, joinPriority := found.sync.value.1) else preset;
    var withTc := if found.timeCorrection.Some? then withSync.(timeCorrection := found.timeCorrection.value.0, isNack := found.timeCorrection.value.1) else withSync;
    withTc.(payloadIeOffset := found.payloadIeOffset)
  }

  /** The MIC length reserved after the IEs, when it is checked at all. */
  predicate MicRoomMissing(bufSize: int, cur: nat, mic: nat, checked: bool) {
    checked && bufSize < cur + mic
  }

  /**
   * The common tail of both parsers: after the header (curr_len, a uint8),
   * parse the IE list if the frame announces one, over the buffer minus the
   * header and the MIC.
   */
  function ParseIes(bufSize: int, h: Header, preset: Ies, parse: IeParser, mic: nat, micChecked: bool): Option<Parsed> {
    var cur := h.len % 256;
    if !h.frame.iePresent then
      Some(Parsed(cur, (cur + preset.payloadIeOffset) % 256, preset))
    else if MicRoomMissing(bufSize, cur, mic, micChecked) then
      None
    else
      match parse(cur, bufSize - cur - mic)
      case None => None
      case Some((n, found)) =>
        var ies := Filled(preset, found);
        Some(Parsed((cur + n) % 256, (cur + ies.payloadIeOffset) % 256, ies))
  }

  /**
   * tsch_packet_parse_eb. hasFrame is false for a NULL frame pointer; llsec
   * is LLSEC802154_ENABLED; withoutMic is the frame_without_mic argument.
   */
  function ParseEb(hasFrame: bool, bufSize: int, h: Header, parse: IeParser, llsec: bool, withoutMic: bool): Option<Parsed> {
    if !hasFrame || bufSize < 0 then None
    else if h.len == 0 then None
    else if h.frame.frameVersion < FRAME_VERSION_2015 || h.frame.frameType != BEACON_FRAME then None
    else
      var checked := llsec && !withoutMic;
      ParseIes(bufSize, h, EbPresetIes, parse, if checked then h.frame.micLen else 0, checked)
  }

  /** What ParseIes accepts: no IE list, or room for the MIC and a successful IE parse. */
  predicate IesAccepted(bufSize: int, h: Header, parse: IeParser, mic: nat, micChecked: bool) {
    var cur := h.len % 256;
    !h.frame.iePresent ||
    (!MicRoomMissing(bufSize, cur, mic, micChecked) && parse(cur, bufSize - cur - mic).Some?)
  }

  /**
   * parse_eb returns 0 exactly for a NULL frame, a negative size, an
   * unparseable header, a version before 2015, a type other than beacon, a
   * missing MIC room or a failed IE parse.
   */
  lemma ParseEbAccepts(hasFrame: bool, bufSize: int, h: Header, parse: IeParser, llsec: bool, withoutMic: bool)
    ensures ParseEb(hasFrame, bufSize, h, parse, llsec, withoutMic).Some? <==>
      hasFrame && bufSize >= 0 && h.len != 0 &&
      h.frame.frameVersion >= FRAME_VERSION_2015 && h.frame.frameType == BEACON_FRAME &&
      IesAccepted(bufSize, h, parse, if llsec && !withoutMic then h.frame.micLen else 0, llsec && !withoutMic)
  {
  }

  /**
   * An accepted EB without a Synchronization IE (or without any IE list)
   * reports join priority 0xff, which association then refuses.
   */
  lemma EbWithoutSyncIeReportsMaxJoinPriority(hasFrame: bool, bufSize: int, h: Header, parse: IeParser, llsec: bool, withoutMic: bool)
    requires ParseEb(hasFrame, bufSize, h, parse, llsec, withoutMic).Some?
    requires var cur := h.len % 256; var mic := if llsec && !withoutMic then h.frame.micLen else 0;
      h.frame.iePresent ==> parse(cur, bufSize - cur - mic).value.1.sync.None?
    ensures ParseEb(hasFrame, bufSize, h, parse, llsec, withoutMic).value.ies.joinPriority == 0xff
  {
  }

  /**
   * The IE region handed to the IE parser starts after the header and is the
   * buffer size minus the header and the MIC; the returned length adds what
   * it consumed to the header length.
   */
  lemma ParseIesRegion(bufSize: int, h: Header, preset: Ies, parse: IeParser, mic: nat, micChecked: bool)
    requires ParseIes(bufSize, h, preset, parse, mic, micChecked).Some? && h.frame.iePresent
    ensures var cur := h.len % 256;
      parse(cur, bufSize - cur - mic).Some? &&
      ParseIes(bufSize, h, preset, parse, mic, micChecked).value.len == (cur + parse(cur, bufSize - cur - mic).value.0) % 256
  {
  }

  /** A destination parse_eack accepts: our own address or the null address. */
  predicate DestAccepted(dest: Option<LinkAddr>, self: LinkAddr) {
    dest.Some? && (dest.value == self || dest.value == NullAddr)
  }

  /**
   * tsch_packet_parse_eack for the ACK of the frame with sequence number
   * seqno, at a node whose address is self.
   */
  function ParseEack(hasFrame: bool, bufSize: int, h: Header, seqno: uint8, self: LinkAddr, parse: IeParser, llsec: bool): Option<Parsed> {
    if !hasFrame || bufSize < 0 then None
    else if h.len < 3 then None
    else if seqno != h.frame.seqno then None
    else if !h.frame.destPanIdOk then None
    else if !DestAccepted(h.frame.dest, self) then None
    else ParseIes(bufSize, h, ZeroIes, parse, if llsec then h.frame.micLen else 0, llsec)
  }

  /**
   * parse_eack accepts exactly the ACKs with a header of at least 3 octets,
   * the expected seqno, our PAN, a destination that is us or null, and (with
   * security) room for the MIC and a parseable IE list.
   */
  lemma ParseEackAccepts(hasFrame: bool, bufSize: int, h: Header, seqno: uint8, self: LinkAddr, parse: IeParser, llsec: bool)
    ensures ParseEack(hasFrame, bufSize, h, seqno, self, parse, llsec).Some? <==>
      hasFrame && bufSize >= 0 && h.len >= 3 && h.frame.seqno == seqno && h.frame.destPanIdOk &&
      DestAccepted(h.frame.dest, self) &&
      IesAccepted(bufSize, h, parse, if llsec then h.frame.micLen else 0, llsec)
  {
  }

  /** An ACK without a Time Correction IE reports no drift and no NACK. */
  lemma EackWithoutTimeCorrectionIsZero(hasFrame: bool, bufSize: int, h: Header, seqno: uint8, self: LinkAddr, parse: IeParser, llsec: bool)
    requires ParseEack(hasFrame, bufSize, h, seqno, self, parse, llsec).Some?
    requires var cur := h.len % 256; var mic := if llsec then h.frame.micLen else 0;
      h.frame.iePresent ==> parse(cur, bufSize - cur - mic).value.1.timeCorrection.None?
    ensures ParseEack(hasFrame, bufSize, h, seqno, self, parse, llsec).value.ies.timeCorrection == 0
    ensures !ParseEack(hasFrame, bufSize, h, seqno, self, parse, llsec).value.ies.isNack
  {
  }

  // ---------------------------------------------------------------------
  // The two IEs encoded here.

  /**
   * The Time Correction header IE (element ID 0x1e, 2 content octets): the
   * drift as a 12-bit two's complement value, bit 15 set for a NACK.
   */
  function TimeCorrectionIe(drift: int16, nack: bool): (bs: seq<uint8>)
    ensures |bs| == 4
  {
    var field := drift % 0x1000 + (if nack then 0x8000 else 0);
    [0x02, 0x0f] + LeBytes(field, 2)
  }

  /** Reading a Time Correction IE: sign-extend the low 12 bits, bit 15 is the NACK flag. */
  function ReadTimeCorrection(bs: seq<uint8>): (r: (int, bool))
    requires |bs| == 4
    ensures -0x800 <= r.0 < 0x800
  {
    var field := LeValue(bs[2..4]);
    var v := field % 0x1000;
    (if v >= 0x800 then v - 0x1000 else v, (field / 0x8000) % 2 == 1)
  }

  /** Drifts that fit 12 bits survive the round trip; larger ones are cut to 12 bits. */
  lemma TimeCorrectionRoundTrip(drift: int16, nack: bool)
    requires -0x800 <= drift < 0x800
    ensures ReadTimeCorrection(TimeCorrectionIe(drift, nack)) == (drift, nack)
  {
    var field := drift % 0x1000 + (if nack then 0x8000 else 0);
    var bs := TimeCorrectionIe(drift, nack);
    assert bs == [0x02, 0x0f] + LeBytes(field, 2);
    assert bs[2..4] == LeBytes(field, 2);
    assert Pow256(2) == 0x1_0000;
    LeRoundTrip(field, 2);
    FieldParts(drift, nack);
    SignExtend(drift);
  }

  lemma FieldParts(drift: int16, nack: bool)
    ensures var field := drift % 0x1000 + (if nack then 0x8000 else 0);
      field % 0x1000 == drift % 0x1000 && ((field / 0x8000) % 2 == 1 <==> nack)
  {
  }

  lemma SignExtend(drift: int)
    requires -0x800 <= drift < 0x800
    ensures var v := drift % 0x1000; (if v >= 0x800 then v - 0x1000 else v) == drift
  {
  }

  /** The TSCH Synchronization IE (MLME short sub-ID 0x1a, 6 content octets): the 5-octet ASN and the join priority. */
  function SyncIe(asn: Asn, joinPriority: uint8): (bs: seq<uint8>)
    ensures |bs| == 8
  {
    [0x06, 0x1a] + LeBytes(asn, 5) + [joinPriority]
  }

  function ReadSync(bs: seq<uint8>): (r: (nat, uint8))
    requires |bs| == 8
  {
    (LeValue(bs[2..7]), bs[7])
  }

  lemma SyncRoundTrip(asn: Asn, joinPriority: uint8)
    ensures ReadSync(SyncIe(asn, joinPriority)) == (asn, joinPriority)
  {
    var bs := SyncIe(asn, joinPriority);
    assert bs[2..7] == LeBytes(asn, 5);
    assert Pow256(5) == ASN_LIMIT;
    LeRoundTrip(asn, 5);
  }

  // ---------------------------------------------------------------------
  // Enhanced ACK construction.

  /** n zero octets. */
  function Zeros(n: nat): (z: seq<uint8>)
    ensures |z| == n && forall i :: 0 <= i < n ==> z[i] == 0
  {
    seq(n, _ => 0)
  }

  /** memset(buf, 0, buf.Length). */
  method Clear(buf: array<uint8>)
    modifies buf
    ensures buf[..] == Zeros(buf.Length)
  {
    var i := 0;
    while i < buf.Length
      invariant 0 <= i <= buf.Length
      invariant forall k :: 0 <= k < i ==> buf[k] == 0
    {
      buf[i] := 0;
      i := i + 1;
    }
  }

  /** s with the octets from position at replaced by bs. */
  function Overwrite(s: seq<uint8>, at: nat, bs: seq<uint8>): (r: seq<uint8>)
    requires at + |bs| <= |s|
    ensures |r| == |s| && r[at..at + |bs|] == bs
    ensures forall i :: 0 <= i < |s| && !(at <= i < at + |bs|) ==> r[i] == s[i]
  {
    s[..at] + bs + s[at + |bs|..]
  }

  /** Copy bs into buf at position at (the memcpy of the IE and header writers). */
  method Write(buf: array<uint8>, at: nat, bs: seq<uint8>)
    requires at + |bs| <= buf.Length
    modifies buf
    ensures buf[..] == Overwrite(old(buf[..]), at, bs)
  {
    var i := 0;
    while i < |bs|
      invariant 0 <= i <= |bs|
      invariant forall k :: 0 <= k < buf.Length && !(at <= k < at + i) ==> buf[k] == old(buf[k])
      invariant forall k :: 0 <= k < i ==> buf[at + k] == bs[k]
    {
      buf[at + i] := bs[i];
      i := i + 1;
    }
    assert buf[..] == Overwrite(old(buf[..]), at, bs);
  }

  /**
   * tsch_packet_create_eack (default build): header is what the 802.15.4
   * framer produces for the ACK. The buffer is cleared, the Time Correction
   * IE written after the header if it fits in the rest of the buffer, then
   * the header written; the result is the ACK length or -1.
   */
  method CreateEack(buf: array?<uint8>, header: seq<uint8>, drift: int16, nack: bool) returns (len: int)
    modifies buf
    ensures buf == null ==> len == -1
    ensures buf != null && buf.Length - |header| < 4 ==> len == -1 && buf[..] == Zeros(buf.Length)
    ensures buf != null && buf.Length - |header| >= 4 ==>
      len == |header| + 4 &&
      buf[..] == header + TimeCorrectionIe(drift, nack) + Zeros(buf.Length - |header| - 4)
  {
    if buf == null {
      return -1;
    }
    Clear(buf);
    if buf.Length - |header| < 4 {
      return -1;
    }
    Write(buf, |header|, TimeCorrectionIe(drift, nack));
    Write(buf, 0, header);
    len := |header| + 4;
    assert buf[..] == header + TimeCorrectionIe(drift, nack) + Zeros(buf.Length - |header| - 4);
  }

  /** The drift and NACK flag an enhanced ACK built by CreateEack carries, read back after the header. */
  lemma EackCarriesDrift(header: seq<uint8>, drift: int16, nack: bool, rest: nat)
    requires -0x800 <= drift < 0x800
    ensures var ack := header + TimeCorrectionIe(drift, nack) + Zeros(rest);
      ReadTimeCorrection(ack[|header|..|header| + 4]) == (drift, nack)
  {
    var ack := header + TimeCorrectionIe(drift, nack) + Zeros(rest);
    assert ack[|header|..|header| + 4] == TimeCorrectionIe(drift, nack);
    TimeCorrectionRoundTrip(drift, nack);
  }

  // ---------------------------------------------------------------------
  // EB construction and update.

  /** The Slotframe and Link IE content create_eb announces: slotframe 0 and its link at (0, 0). */
  datatype SlotframeLinkIe = SlotframeLinkIe(handle: uint16, size: uint16, timeslot: uint16, channelOffset: uint16, options: LinkOptions)

  /** The IE contents of an EB: what association reads, plus the announced slotframe and link. */
  datatype EbContent = EbContent(ies: EbIes, sfLink: Option<SlotframeLinkIe>)

  /**
   * The build flags TSCH_PACKET_EB_WITH_TIMESLOT_TIMING,
   * TSCH_PACKET_EB_WITH_HOPPING_SEQUENCE and
   * TSCH_PACKET_EB_WITH_SLOTFRAME_AND_LINK, which decide which IEs create_eb
   * fills in.
   */
  datatype EbOptions = EbOptions(withTiming: bool, withHopping: bool, withSlotframeAndLink: bool)

  /**
   * The IEs create_eb fills in on the zeroed struct: with the timing flag,
   * the timeslot timing with template ID 1 (otherwise ID 0, no timing); with
   * the hopping flag, the hopping sequence if it fits the IE's list
   * (otherwise ID 0); with the slotframe-and-link flag, that IE when
   * slotframe 0 and a link at timeslot 0, channel offset 0 exist. sf0 and
   * link0 are the results of tsch_schedule_get_slotframe_by_handle(0) and
   * tsch_schedule_get_link_by_timeslot(sf0, 0, 0). The ASN and join priority
   * stay 0 until UpdateEb writes them.
   */
  function EbContentOf(cfg: Config, opts: EbOptions, timingUs: seq<nat>, hopping: seq<uint8>, sf0: Option<Slotframe>, link0: Option<Link>): (c: EbContent)
    ensures c.ies.timeslotId != 0 <==> opts.withTiming
    ensures opts.withTiming ==> c.ies.timeslotTiming == timingUs
    ensures c.ies.hoppingSequenceId != 0 <==> opts.withHopping && |hopping| <= cfg.hoppingSequenceMaxLen
    ensures c.ies.hoppingSequenceId != 0 ==> c.ies.hoppingSequence == hopping
    ensures c.sfLink.Some? <==> opts.withSlotframeAndLink && sf0.Some? && link0.Some?
    ensures c.sfLink.Some? ==> c.sfLink.value == SlotframeLinkIe(sf0.value.handle, sf0.value.size,
      link0.value.timeslot, link0.value.channelOffset, link0.value.options)
    ensures c.ies.numSlotframes == c.ies.numLinks == (if c.sfLink.Some? then 1 else 0)
  {
    var hop := opts.withHopping && |hopping| <= cfg.hoppingSequenceMaxLen;
    var both := opts.withSlotframeAndLink && sf0.Some? && link0.Some?;
    var ies := EbIes(
      asn := 0,
      joinPriority := 0,
      timeslotId := if opts.withTiming then 1 else 0,
      timeslotTiming := if opts.withTiming then timingUs else [],
      hoppingSequenceId := if hop then 1 else 0,
      hoppingSequence := if hop then hopping else [],
      numSlotframes := if both then 1 else 0,
      numLinks := if both then 1 else 0);
    EbContent(ies, if both then Some(SlotframeLinkIe(sf0.value.handle, sf0.value.size,
      link0.value.timeslot, link0.value.channelOffset, link0.value.options)) else None)
  }

  /**
   * The content of an EB a node builds passes the hopping-sequence and
   * link-count checks of tsch_associate at a node with the same
   * configuration, and announces this node's own timing when the timing IE
   * is built in (the receiver's defaults otherwise).
   */
  lemma OwnEbPassesContentChecks(cfg: Config, opts: EbOptions, timingUs: seq<nat>, hopping: seq<uint8>, sf0: Option<Slotframe>, link0: Option<Link>)
    requires cfg.ieMaxLinks >= 1
    ensures var ies := EbContentOf(cfg, opts, timingUs, hopping, sf0, link0).ies;
      (ies.hoppingSequenceId != 0 ==> |ies.hoppingSequence| <= cfg.hoppingSequenceMaxLen) &&
      (ies.numSlotframes != 0 ==> ies.numLinks <= cfg.ieMaxLinks) &&
      EbTiming(cfg, ies) == (if opts.withTiming then timingUs else cfg.defaultTiming)
  {
  }

  /** The frame create_eb leaves in the packet buffer, with *hdr_len and *tsch_sync_ie_offset (both uint8). */
  datatype EbBuild = EbBuild(frame: seq<uint8>, hdrLen: uint8, syncIeOffset: uint8)

  /** The MLME Payload IE header (group ID 1, type long) for an IE list of mlmeLen octets. */
  function PayloadIeHeader(mlmeLen: nat): (bs: seq<uint8>)
    ensures |bs| == PAYLOAD_IE_HDR_LEN
  {
    LeBytes(mlmeLen % 0x800 + 0x800 + 0x8000, 2)
  }

  /**
   * tsch_packet_create_eb: the MAC header (the framer's output including the
   * Header Termination IE, None when the framer failed), then the Payload IE
   * header, then the Synchronization IE, then the other IEs (their encoders
   * are not part of this model, so their octets are an input). It fails when
   * the framer fails or the frame exceeds the packet buffer.
   */
  function CreateEb(header: Option<seq<uint8>>, otherIes: seq<uint8>, capacity: nat): (r: Option<EbBuild>)
    ensures r.Some? <==> header.Some? && |header.value| + PAYLOAD_IE_HDR_LEN + 8 + |otherIes| <= capacity
  {
    if header.None? || |header.value| + PAYLOAD_IE_HDR_LEN + 8 + |otherIes| > capacity then None
    else
      var mlme := SyncIe(0, 0) + otherIes;
      Some(EbBuild(header.value + PayloadIeHeader(|mlme|) + mlme,
                   |header.value| % 256,
                   (|header.value| + PAYLOAD_IE_HDR_LEN) % 256))
  }

  /**
   * The offset create_eb reports is the header length plus the Payload IE
   * header, and the Synchronization IE sits exactly there.
   */
  lemma CreatedEbSyncIeAtOffset(header: Option<seq<uint8>>, otherIes: seq<uint8>, capacity: nat)
    requires CreateEb(header, otherIes, capacity).Some? && |header.value| + PAYLOAD_IE_HDR_LEN < 256
    ensures var b := CreateEb(header, otherIes, capacity).value;
      b.syncIeOffset == b.hdrLen + PAYLOAD_IE_HDR_LEN &&
      b.syncIeOffset + 8 <= |b.frame| &&
      b.frame[b.syncIeOffset..b.syncIeOffset + 8] == SyncIe(0, 0)
  {
    var b := CreateEb(header, otherIes, capacity).value;
    var h := header.value;
    var mlme := SyncIe(0, 0) + otherIes;
    assert b.hdrLen == |h| && b.syncIeOffset == |h| + 2;
    assert b.frame == h + PayloadIeHeader(|mlme|) + mlme;
    assert b.frame[|h| + 2..|h| + 10] == mlme[..8];
  }

  /**
   * tsch_packet_update_eb: write the current ASN and join priority as a
   * Synchronization IE at the saved offset, if the 8 octets fit in buf_size.
   */
  method UpdateEb(buf: array<uint8>, bufSize: int, offset: uint8, asn: Asn, joinPriority: uint8) returns (ok: bool)
    requires bufSize <= buf.Length
    modifies buf
    ensures ok <==> bufSize - offset >= 8
    ensures ok ==> buf[..] == Overwrite(old(buf[..]), offset, SyncIe(asn, joinPriority))
    ensures !ok ==> buf[..] == old(buf[..])
  {
    if bufSize - offset < 8 {
      return false;
    }
    Write(buf, offset, SyncIe(asn, joinPriority));
    ok := true;
  }

  /**
   * An EB created and then updated announces the ASN and join priority of the
   * update at the offset create_eb reported, and keeps everything else.
   */
  lemma UpdatedEbAnnounces(header: Option<seq<uint8>>, otherIes: seq<uint8>, capacity: nat, asn: Asn, joinPriority: uint8)
    requires CreateEb(header, otherIes, capacity).Some? && |header.value| + PAYLOAD_IE_HDR_LEN < 256
    ensures var b := CreateEb(header, otherIes, capacity).value;
      var sent := Overwrite(b.frame, b.syncIeOffset, SyncIe(asn, joinPriority));
      ReadSync(sent[b.syncIeOffset..b.syncIeOffset + 8]) == (asn, joinPriority) &&
      sent[..b.syncIeOffset] == b.frame[..b.syncIeOffset] &&
      sent[b.syncIeOffset + 8..] == b.frame[b.syncIeOffset + 8..]
  {
    CreatedEbSyncIeAtOffset(header, otherIes, capacity);
    SyncRoundTrip(asn, joinPriority);
  }

  // ---------------------------------------------------------------------
  // The frame-pending bit (bit 4 of the first frame control octet).

  /** buf[0] | (1 << 4), written arithmetically: add 16 unless bit 4 is already set. */
  function SetPendingBit(b: uint8): (r: uint8) {
    if (b / 16) % 2 == 1 then b else b + 16
  }

  /** (buf[0] >> 4) & 1. */
  function PendingBit(b: uint8): (r: uint8) {
    (b / 16) % 2
  }

  /** Setting the bit makes it read 1 and leaves bits 0-3 and 5-7 of the octet as they were. */
  lemma SetPendingBitSets(b: uint8)
    ensures PendingBit(SetPendingBit(b)) == 1
    ensures SetPendingBit(b) % 16 == b % 16 && SetPendingBit(b) / 32 == b / 32
  {
  }

  /** tsch_packet_set_frame_pending. */
  method SetFramePending(buf: array<uint8>)
    requires buf.Length >= 1
    modifies buf
    ensures buf[..] == old(buf[..])[0 := SetPendingBit(old(buf[0]))]
  {
    buf[0] := SetPendingBit(buf[0]);
  }

  /** tsch_packet_get_frame_pending. */
  method GetFramePending(buf: array<uint8>) returns (p: uint8)
    requires buf.Length >= 1
    ensures p == PendingBit(buf[0])
  {
    p := PendingBit(buf[0]);
  }
}
